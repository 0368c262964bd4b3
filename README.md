# libcellml: variable equivalence and expression rendering, in Dafny

This project models two parts of libcellml's code generator.

**The variable equivalence network** (`Variables`, `variables.dfy`). A CellML
`Variable` keeps an ordered list of weak links to the variables declared
equivalent to it. `addEquivalence(a, b)` links each variable from the other.
`setEquivalentTo` appends a link only when no entry already resolves to the
target. The three queries `hasEquivalentVariable`, `getEquivalentVariable`
and `equivalentVariableCount` resolve the weak links when they are called.

The model is a class `Variable` with the fields of the C++ private
implementation. A weak link is the identity of its target, a `Variable`
reference. Liveness is a set `live` of the variables that still have an
owner. `Lock(w, live)` stands for `weak_ptr::lock`: it gives the target only
while the target is in `live`. Destroying a variable means removing it from
`live`. That leaves every link list alone, so the variable's old entries
decay in place. Every `VariablePtr` argument is held by its caller, so it is
live; the operations require that.

The same class carries the variable's XML text form (`doSerialisation`). Its
specification `XmlElement` is paired with a reader, `ParseXmlElement`. The
lemma `XmlRoundTrip` proves that reading gives back the attributes, provided
no value contains a `"`. Values are written without escaping. The lemma
`UnescapedQuoteForgesAttribute` shows why the proviso is needed: a name that
contains a quote yields the same text as a different variable that has units.

**The expression-rendering tree** (`Operators`, `operators.dfy`). The
operator library's nodes are a datatype `Node`:
- arithmetic operators, which carry `operatorRepresentation`;
- `Power`;
- standard-library operators, which carry `fun`;
- variable and constant leaves.

`Repr` is `repr()`. An arithmetic node renders as its first argument, then
its operator text, then its second argument. A standard-library node renders
as `std::` + `fun` + `(` + argument + `)`. The header does not show how
`Power`, a variable leaf or a constant leaf render. Those three renderings
are left abstract: they are the function fields of a `Primitives` value, and
every rendering takes one. The setters `setArg1`, `setArg2` and `setArg` are
functional updates. `ReplaceAt` applies them along a path of argument slots.

Points where the model makes a choice:
- `equivalentVariableCount` is the raw length of the list, so decayed entries
  are counted. `LiveLinkCount` counts only the live links, and
  `DecayedLinksStillCounted` relates the two.
- A standard-library operator renders with the `std::` prefix that the
  header documents.
- The header shows no `Power` layout, so it stays abstract.
- `addEquivalence` keeps a network symmetric. The copy constructor copies
  the link list, but the variables it links to do not link back to the copy.

The operator texts of `Addition`, `Subtraction`, `Multiplication` and
`Division` are assumed to be `" + "`, `" - "`, `" * "` and `" / "`: the
symbol between single spaces. The names of `fun` for `AbsoluteValue`, `Sine`
and `Cosine` are assumed to be `abs`, `sin` and `cos`, after the header's own
examples. The constructors that set these values are not in the header.

## Model

| member | source | states |
|---|---|---|
| `Variables.FindLink` | src/variable.cpp:51-55 | `findEquivalentVariable`: the result is the position of the first entry whose `lock()` is the candidate. No earlier entry matches. The result is the list length (`end()`) when no entry matches. |
| `Variables.Variable.HasEquivalentVariable` | src/variable.cpp:110-113 | True iff some entry, resolved now, is the live candidate. Equivalently: the candidate is in the list. A decayed entry never matches a live candidate. |
| `Variables.Variable.GetEquivalentVariable` | src/variable.cpp:99-103 | Out of range exactly when the index is at least `equivalentVariableCount()`. For an index in range: the entry's target while it lives, and nothing (not an error) once it has been destroyed. |
| `Variables.DecayedLinksStillCounted` | src/variable.cpp:105-108 | The count is the raw list length. The number of live links is at most the count. The two are equal iff no entry has decayed. |
| `Variables.AppendIfAbsent` | src/variable.cpp:115-121 | The list after `setEquivalentTo(v)`: `v` is linked; the old list is a prefix and at most one entry is added; the list is unchanged when `v` was already linked; a duplicate-free list stays duplicate-free. |
| `Variables.Variable.SetEquivalentTo` | src/variable.cpp:115-121 | Only the link list changes, and it becomes `AppendIfAbsent(old list, v)`. The no-duplicates invariant is kept. |
| `Variables.Variable.AddEquivalence` | src/variable.cpp:93-97 | Afterwards each variable has the other as an equivalent variable. Each list gains the other variable at its end unless already linked. A second call changes nothing. Symmetry of any network holding both variables is kept. Only the two link lists change. |
| `Variables.Variable.constructor` | src/variable.cpp:42-60 | A new variable has no links, an empty name and initial value, interface type none and no units. |
| `Variables.Variable.Copy` | src/variable.cpp:67-72 | The copy has the same name and the same link list. Its initial value is empty, its interface type is none and it has no units. |
| `Variables.Variable.SetUnits` | src/variable.cpp:145-148 | The units become the argument. Nothing else changes. The no-duplicates invariant on the link list is kept. |
| `Variables.Variable.SetInitialValue` | src/variable.cpp:155-158 | The initial value becomes the text, verbatim. Nothing else changes. The no-duplicates invariant on the link list is kept. |
| `Variables.Variable.SetInitialValueToVariable` | src/variable.cpp:167-170 | The initial value becomes the given variable's name. Nothing else changes. The no-duplicates invariant on the link list is kept. |
| `Variables.Variable.SetInterfaceType` | src/variable.cpp:177-180 | The interface type becomes the argument. Nothing else changes. The no-duplicates invariant on the link list is kept. |
| `Variables.Variable.DoSerialisation` | src/variable.cpp:123-143 | For XML: `<variable`, then the attributes name, units, initial_value and interface in that order, then `/>`. Name appears only if non-empty, units only if set, initial_value only if non-empty, interface only if not none. Any other format gives the empty string. |
| `Variables.XmlRoundTrip` | src/variable.cpp:123-143 | Reading the XML form back gives exactly the variable's name, units, initial value and interface type, when no value contains a `"`. |
| `Variables.UnescapedQuoteForgesAttribute` | src/variable.cpp:128-133 | Values are not escaped. A name holding `" units="u` serialises to the same text as a variable with units `u`. |
| `Variables.Variable.EquivalentVariableCount` | src/variable.cpp:105-108 | The raw length of the link list, decayed entries included; stated by `DecayedLinksStillCounted`. |
| `Variables.InterfaceTypeToString` | src/variable.cpp:187-211 | The four interface types map to "none", "private", "public" and "public_and_private"; one-to-one, as `InterfaceTypeRoundTrip` states. |
| `Variables.InterfaceTypeRoundTrip` | src/variable.cpp:187-211 | NONE, PRIVATE, PUBLIC and PUBLIC_AND_PRIVATE map to "none", "private", "public" and "public_and_private". Each text reads back as its own type, so the mapping is one-to-one, and no text holds a quote. |
| `Operators.Repr` | src/api/libcellml/operatorlibrary.h:42-47 | `repr()`, recursive over the tree and total on every finite tree. Its layouts are stated by `ArithmeticLayouts` and `StdLayouts`, its compositionality by `ReplacementPreservesRepr` and `SubtreeReprEmbedded`, and its rendering of arithmetic trees by `ArithmeticTreeRepr`. |
| `Operators.Addition` | src/api/libcellml/operatorlibrary.h:86-91 | An arithmetic operator with text `" + "`; its rendering is stated by `ArithmeticLayouts`. |
| `Operators.Subtraction` | src/api/libcellml/operatorlibrary.h:93-98 | An arithmetic operator with text `" - "`; its rendering is stated by `ArithmeticLayouts`. |
| `Operators.Multiplication` | src/api/libcellml/operatorlibrary.h:100-105 | An arithmetic operator with text `" * "`; its rendering is stated by `ArithmeticLayouts`. |
| `Operators.Division` | src/api/libcellml/operatorlibrary.h:107-112 | An arithmetic operator with text `" / "`; its rendering is stated by `ArithmeticLayouts`. |
| `Operators.AbsoluteValue` | src/api/libcellml/operatorlibrary.h:169-174 | A standard-library operator with `fun` equal to `abs`; its rendering is stated by `StdLayouts`. |
| `Operators.Sine` | src/api/libcellml/operatorlibrary.h:176-181 | A standard-library operator with `fun` equal to `sin`; its rendering is stated by `StdLayouts`. |
| `Operators.Cosine` | src/api/libcellml/operatorlibrary.h:183-188 | A standard-library operator with `fun` equal to `cos`; its rendering is stated by `StdLayouts`. |
| `Operators.ArithmeticLayouts` | src/api/libcellml/operatorlibrary.h:67-112 | Addition, subtraction, multiplication and division render as the first argument, their operator text, then the second argument. Only the operator text differs between them. |
| `Operators.StdLayouts` | src/api/libcellml/operatorlibrary.h:149-188 | Absolute value, sine and cosine render as `std::` + function name + `(` + argument + `)`. |
| `Operators.SetArg1` | src/api/libcellml/operatorlibrary.h:57-58 | `getArg1` gives the new argument, `getArg2` is unchanged, and restoring the old first argument gives back the original node. |
| `Operators.SetArg2` | src/api/libcellml/operatorlibrary.h:59-60 | `getArg2` gives the new argument, `getArg1` is unchanged, and restoring the old second argument gives back the original node. |
| `Operators.SetArg` | src/api/libcellml/operatorlibrary.h:142-143 | `getArg` gives the new argument, and nothing else in the node changes. |
| `Operators.AtReplaceAt` | src/api/libcellml/operatorlibrary.h:57-60 | After setters replace a subtree at the end of a path of slots, the getters down that path reach the new subtree. |
| `Operators.ReplaceAtSelf` | src/api/libcellml/operatorlibrary.h:57-60 | Setting a slot to what its getter returns changes nothing, at any depth. |
| `Operators.ReplacementPreservesRepr` | src/api/libcellml/operatorlibrary.h:42-47 | Rendering is compositional. A tree depends on each subtree only through that subtree's rendering. Replacing a subtree with one that renders the same leaves the whole rendering unchanged. |
| `Operators.SubtreeReprEmbedded` | src/api/libcellml/operatorlibrary.h:129-134 | Below arithmetic and standard-library operators, a subtree's rendering appears verbatim inside the rendering of the whole tree. |
| `Operators.ArithmeticTreeRepr` | src/api/libcellml/operatorlibrary.h:67-83 | A tree of arithmetic operators with k leaves has k - 1 operators. It renders as the leaves' renderings, left to right, with the operator texts between them in order. |

## Left out

- `setInitialValue(double)` and `Constant::repr`: both format a double through `std::ostringstream`, which is floating-point and library dependent. A constant's rendering is the abstract `Primitives.constant`. A constant's value is a `real`, so NaN, the infinities and -0.0 cannot be written; nothing depends on this, since the rendering is abstract.
- `Power::repr` and `operators::Variable::repr`: their bodies are not in the header. They are the abstract `Primitives.power` and `Primitives.variable`. `Power` is assumed to render from its two arguments' renderings.
- The constructors of `Addition`, `Subtraction`, `Multiplication`, `Division`, `AbsoluteValue`, `Sine` and `Cosine` are not in the header. Their operator texts and function names are those given above.
- The move constructor, `swap` and `operator=`: they only move the private-implementation pointer, and nothing beyond the copy can be stated about them.
- The constructor's empty name and the copy constructor's copied name come from `NamedEntity()` and `NamedEntity(rhs)`, which are not part of this model; the model assumes a name that defaults to empty and is copied.
- `Units` and `NamedEntity` are not part of this model. Units are modelled as an optional units name. A variable's name is a plain field, and setting it (a `NamedEntity` operation) is not modelled.
- The getters (`getUnits`, `getInitialValue`, `getInterfaceType`, `getArg1`, `getArg2`, `getArg`) are plain reads of the fields.
- Formats other than XML are folded into one value, `FormatOther`, because every such format serialises the same way.
- Null `shared_ptr` arguments, and shared or cyclic subtrees built through the setters: the tree is an acyclic value whose children are always present.
- `Operators.SetArg1`, `Operators.SetArg2`, `Operators.SetArg`: these are functional updates that return the new node. An in-place update seen by other holders of the same `shared_ptr` (aliasing) is not modelled.
- `Variables.Variable.HasEquivalentVariable`: requires a live, non-null candidate. The null-candidate lookup, in which `lock()` of a decayed entry equals `nullptr` and matches, is not modelled.
- Object destruction and reference counting: the runtime's record of live variables is the explicit set `live`, and destroying a variable means removing it from that set.
- `size_t` indices are unbounded naturals. Nothing in the modelled code depends on their width.
- Threading: the code has no locking, and the model is sequential.
