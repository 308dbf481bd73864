# helper.js utilities in Dafny

This project models the helper module of a form-driven admin application, `src/utils/modules/helper.js`. The module has three groups of pure functions, and each becomes a Dafny module:

- **Comparison** (`comparison.dfy`). `isValueSameArray` compares two arrays without regard to order. `isValueSameObject` compares two objects key by key.
  - Arrays are `seq<T>`, and JavaScript strict equality is `==` on an abstract element type.
  - An object is its own keys in enumeration order (what lodash `keys` returns) together with a `map` from key to value. Reading a missing key gives `None`, which stands for `undefined`.
- **Validators** (`validators.dfy`, with `chars.dfy` and `labels.dfy`). There are four validators: user name, password, mobile phone number and e-mail address.
  - Each regular expression is restated as a predicate built from explicit character-class tests.
  - Each `*Validator` adapter returns a `Verdict`, either `Accept` or `Reject(message)`, instead of calling a callback. Every adapter accepts the empty string.
- **Trees** (`trees.dfy`). `flatTree` turns a forest into a flat list. Each node comes after its children, siblings keep their order, and every entry loses its `children_list` key.
  - A node is `Node(attrs, children)`: a finite datatype whose children field is always present.
  - `Flatten` follows the recursion of `push`. `FlatTree` and `Push` follow the accumulator code. `PostOrder` is a separate definition of which node is emitted at each position.

Strings are `seq<char>`, where each `char` is a Unicode scalar value. JavaScript counts UTF-16 code units instead. Every character the patterns accept lies in the Basic Multilingual Plane. A character outside it fails every class in JavaScript too, because its surrogate halves fall outside each class. So each validator gives the same answer under either view.

Where the code and its comments disagree, the model follows the code:
- User names: the doc comment and the error message say 3~10 characters, but the pattern accepts up to 12 (`UsernameLongerThanDocumented`).
- Passwords: the doc comment and the message say 6-15 characters, but the length test accepts 16 (`PasswordLongerThanDocumented`).

The e-mail pattern's group `(\.[a-zA-Z0-9_-]+)+` needs at least two domain labels, so `user@example` is rejected (`EmailExamplesRejected`).

## Model

| member | source | states |
|---|---|---|
| Comparison.IndexOf | src/utils/modules/helper.js:14 | `indexOf` returns -1 exactly when the element is absent. Otherwise it returns the first position that holds the element. |
| Comparison.IsValueSameArray | src/utils/modules/helper.js:8-20 | The result is true iff the lengths are equal and every element of the first array occurs in the second. |
| Comparison.SameValuesReflexive | src/utils/modules/helper.js:8-20 | Every array compares equal to itself. |
| Comparison.PermutationIsSameValues | src/utils/modules/helper.js:8-20 | Any rearrangement of an array compares equal to it (equal multisets imply true). |
| Comparison.SameValuesOfDistinctIsPermutation | src/utils/modules/helper.js:8-20 | If the first array has no repeated element, a true result means the second array is a rearrangement of it. |
| Comparison.SameValuesIgnoresMultiplicity | src/utils/modules/helper.js:13-17 | `[1,1,2]` and `[1,2,2]` compare equal although their multisets differ: membership is tested, not counts. |
| Comparison.SameValuesIsNotSymmetric | src/utils/modules/helper.js:8-20 | `[1,1]` against `[1,2]` is true, but `[1,2]` against `[1,1]` is false. |
| Comparison.IsValueSameObject | src/utils/modules/helper.js:27-41 | True iff the key lists pass the array test and every key of the first object reads the same value from both. On real objects (distinct keys) this is exactly equality of the key-to-value maps. |
| Comparison.SameObjectIsSameFields | src/utils/modules/helper.js:27-41 | For objects without repeated keys, the two steps together hold iff the objects store the same value under the same keys. Both directions are proved. |
| Comparison.KeyOrderIsIgnored | src/utils/modules/helper.js:27-41 | `{a:1,b:2}` and `{b:2,a:1}` pass the key test and store the same map. |
| Labels.Split | src/utils/modules/helper.js:119 | Cutting at the separator yields at least one piece, and no piece contains the separator. |
| Labels.JoinSplit | src/utils/modules/helper.js:119 | Gluing the pieces back with the separator gives the original string. |
| Labels.SplitJoin | src/utils/modules/helper.js:119 | Cutting separator-free pieces glued with the separator gives the pieces back. |
| Validators.UsernameLongerThanDocumented | src/utils/modules/helper.js:43-50 | A 12-character word string is a legal user name, which contradicts the documented 3~10. A 13-character one is not legal. |
| Validators.PasswordIsMixedUsername | src/utils/modules/helper.js:48-80 | For values of 6 to 12 characters, a password is legal iff the value is a legal user name not drawn from a single class. The two patterns share one alphabet. |
| Validators.PasswordMixesTwoClasses | src/utils/modules/helper.js:63-81 | The three tests in sequence (length 6-16, no foreign character, not all of one class) accept exactly the 6-16-character word strings that draw on at least two of lowercase, uppercase, underscore and digit. |
| Validators.PasswordLongerThanDocumented | src/utils/modules/helper.js:63-81 | A 16-character mixed password is accepted, which contradicts the documented 6-15. |
| Validators.MobilePhoneIsNumberInRange | src/utils/modules/helper.js:98-100 | A string matches `1[3-9]` followed by nine digits iff it is an 11-digit numeral whose value lies in 13000000000..19999999999. |
| Validators.DomainIsDottedLabels | src/utils/modules/helper.js:118-120 | A string is a domain iff it is two or more non-empty `[a-zA-Z0-9_-]` labels joined with dots. |
| Validators.EmailHasOneAt | src/utils/modules/helper.js:118-120 | A legal address holds exactly one `@`, and only local-part characters come before it. |
| Validators.EmailFromParts | src/utils/modules/helper.js:118-120 | Any non-empty local part of letters, digits and 一-龥, then `@`, then a domain, forms a legal address. |
| Validators.EmailExampleAccepted | src/utils/modules/helper.js:118-120 | `user@example.com` is legal. |
| Validators.EmailExampleHanAccepted | src/utils/modules/helper.js:118-120 | `用户@example.com` is legal. |
| Validators.EmailExamplesRejected | src/utils/modules/helper.js:118-120 | `user@` (empty domain) and `user@example` (a single label) are not legal. |
| Validators.UsernameValidator | src/utils/modules/helper.js:55-61 | Accepts iff the value is empty or a legal user name. Otherwise it rejects with the fixed user-name message. |
| Validators.PasswordValidator | src/utils/modules/helper.js:86-92 | Accepts iff the value is empty or a legal password. Otherwise it rejects with the fixed password message. |
| Validators.MobilePhoneValidator | src/utils/modules/helper.js:105-111 | Accepts iff the value is empty or a legal mobile number. Otherwise it rejects with the fixed phone message. |
| Validators.EmailValidator | src/utils/modules/helper.js:126-132 | Accepts iff the value is empty or a legal address. Otherwise it rejects with the fixed e-mail message. |
| Validators.EmptyValueIsOnlyAcceptedByAdapters | src/utils/modules/helper.js:55-61 | No pattern matches the empty string, yet all four adapters accept it. |
| Trees.Omit | src/utils/modules/helper.js:147 | The emitted entry has no `children_list` key. Every other field of the node is kept with its value, and no field is added. |
| Trees.FlatTree | src/utils/modules/helper.js:139-152 | The flat list has one entry per node of the forest. Entry `i` is the `i`-th node in post-order, with its children key removed. |
| Trees.Push | src/utils/modules/helper.js:144-149 | `push` appends exactly the forest's entries to what the accumulator already held. |
| Trees.FlattenAppend | src/utils/modules/helper.js:144-149 | Siblings keep their order: flattening `a ++ b` gives flat(`a`) followed by flat(`b`). |
| Trees.PostOrderAppend | src/utils/modules/helper.js:144-149 | The order of visited nodes also splits over concatenation: the nodes of `a ++ b` are those of `a`, then those of `b`. |
| Trees.FlattenIsOmitOfPostOrder | src/utils/modules/helper.js:139-152 | The output length is the number of nodes, and entry `i` is the `i`-th post-order node minus its children key. The `length > 0` guard changes nothing. |
| Trees.SubtreePrecedesNode | src/utils/modules/helper.js:144-149 | For every node, the entries immediately before it are exactly its own subtree in post-order, so each node follows all of its descendants. |
| Trees.FlattenDropsChildrenKey | src/utils/modules/helper.js:147 | No entry of the flat list keeps the `children_list` key. |
| Trees.ChildBeforeParentExample | src/utils/modules/helper.js:139-152 | `[{id:1, children_list:[{id:2, children_list:[]}]}]` flattens to `[{id:2}, {id:1}]`. |

## Left out

- The regular-expression engine. Each pattern is restated as character-class predicates. The `/g` flag on the single-class password pattern has no effect, because the literal is created afresh on every call and `lastIndex` never carries over.
- The callback convention of the adapters, the `Error` objects they construct, and the unused `rule` argument. An adapter returns a `Verdict` instead.
- lodash internals. `keys` is the object's own key sequence and `omit` is removal of one map key. The order in which JavaScript enumerates own properties is not modelled; any key order may be given.
- Reference identity of non-primitive values, and `NaN`. Elements and values have an abstract type with `==`. So `[NaN]` compared with itself is true here, although `indexOf` reports -1 for `NaN` in JavaScript.
- Coercion of non-string values by `RegExp.prototype.test`. Validators take strings only.
- The configuration object of `flatTree`. `keyChildren` is fixed at its default `children_list`, and `data` is a parameter with no default. A cyclic tree, or a node without a children list, cannot be represented, so the stack exhaustion and the property-access failure they cause are not modelled.
