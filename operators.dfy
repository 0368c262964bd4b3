/**
 * The expression tree that the code generator renders into source text
 * (src/api/libcellml/operatorlibrary.h).
 *
 * Every node is `Representable`: its `repr()` renders it, calling `repr()`
 * of its arguments. Binary operators hold two argument slots, unary ones a
 * single slot, and variables and constants are leaves. The tree is a value
 * here: a setter gives back the node with one slot replaced.
 *
 * Three renderings are defined outside the shown header: that of `Power`,
 * of a variable leaf and of a constant leaf. They stay abstract: they are
 * the fields of a `Primitives` value that every rendering is taken over.
 * `Power` is assumed to render from the renderings of its two arguments.
 */
module Operators {

  /** The node kinds. `Arithmetic` carries `operatorRepresentation`; `STDOperator` carries `fun`. */
  datatype Node =
    | Arithmetic(operatorRepresentation: string, arg1: Node, arg2: Node)
    | Power(arg1: Node, arg2: Node)
    | STDOperator(fun: string, arg: Node)
    | Variable(name: string)
    | Constant(value: real)

  /** The renderings whose definitions are not part of this model. */
  datatype Primitives = Primitives(
    power: (string, string) -> string,
    variable: string -> string,
    constant: real -> string)

  /**
   * `repr()`: an arithmetic operator is its first argument, its operator
   * text, its second argument; a standard-library operator is `std::`, its
   * function name and its argument between parentheses.
   */
  function Repr(n: Node, p: Primitives): string
  {
    match n
    case Arithmetic(opr, a1, a2) => Repr(a1, p) + opr + Repr(a2, p)
    case Power(a1, a2) => p.power(Repr(a1, p), Repr(a2, p))
    case STDOperator(fun, a) => "std::" + fun + "(" + Repr(a, p) + ")"
    case Variable(name) => p.variable(name)
    case Constant(value) => p.constant(value)
  }

  // ------------------------------------------------------------------------
  // The concrete operators

  function Addition(a1: Node, a2: Node): Node { Arithmetic(" + ", a1, a2) }
  function Subtraction(a1: Node, a2: Node): Node { Arithmetic(" - ", a1, a2) }
  function Multiplication(a1: Node, a2: Node): Node { Arithmetic(" * ", a1, a2) }
  function Division(a1: Node, a2: Node): Node { Arithmetic(" / ", a1, a2) }
  function AbsoluteValue(a: Node): Node { STDOperator("abs", a) }
  function Sine(a: Node): Node { STDOperator("sin", a) }
  function Cosine(a: Node): Node { STDOperator("cos", a) }

  /** The four arithmetic operators share one layout and differ only in their operator text. */
  lemma ArithmeticLayouts(a1: Node, a2: Node, p: Primitives)
    ensures Repr(Addition(a1, a2), p) == Repr(a1, p) + " + " + Repr(a2, p)
    ensures Repr(Subtraction(a1, a2), p) == Repr(a1, p) + " - " + Repr(a2, p)
    ensures Repr(Multiplication(a1, a2), p) == Repr(a1, p) + " * " + Repr(a2, p)
    ensures Repr(Division(a1, a2), p) == Repr(a1, p) + " / " + Repr(a2, p)
  {
  }

  /** The three standard-library operators share the `std::fun(arg)` layout. */
  lemma StdLayouts(a: Node, p: Primitives)
    ensures Repr(AbsoluteValue(a), p) == "std::abs(" + Repr(a, p) + ")"
    ensures Repr(Sine(a), p) == "std::sin(" + Repr(a, p) + ")"
    ensures Repr(Cosine(a), p) == "std::cos(" + Repr(a, p) + ")"
  {
  }

  // ------------------------------------------------------------------------
  // Argument slots

  /** The nodes that are a `BinaryOperator`: the arithmetic operators and `Power`. */
  predicate IsBinary(n: Node)
  {
    n.Arithmetic? || n.Power?
  }

  /** `setArg1`: the first argument becomes `a`; nothing else in the node changes. */
  function SetArg1(n: Node, a: Node): (r: Node)
    requires IsBinary(n)
    ensures IsBinary(r) && r.arg1 == a && r.arg2 == n.arg2
    ensures r.(arg1 := n.arg1) == n
  {
    n.(arg1 := a)
  }

  /** `setArg2`: the second argument becomes `a`; nothing else in the node changes. */
  function SetArg2(n: Node, a: Node): (r: Node)
    requires IsBinary(n)
    ensures IsBinary(r) && r.arg2 == a && r.arg1 == n.arg1
    ensures r.(arg2 := n.arg2) == n
  {
    n.(arg2 := a)
  }

  /** `setArg`: the argument becomes `a`; nothing else in the node changes. */
  function SetArg(n: Node, a: Node): (r: Node)
    requires n.STDOperator?
    ensures r.STDOperator? && r.arg == a
    ensures r.(arg := n.arg) == n
  {
    n.(arg := a)
  }

  /** The argument slots: the two of a binary operator, the one of a unary operator. */
  datatype Slot = First | Second | Only

  predicate HasSlot(n: Node, s: Slot)
  {
    match s
    case First => IsBinary(n)
    case Second => IsBinary(n)
    case Only => n.STDOperator?
  }

  /** `getArg1`, `getArg2` or `getArg`. */
  function GetSlot(n: Node, s: Slot): Node
    requires HasSlot(n, s)
  {
    match s
    case First => n.arg1
    case Second => n.arg2
    case Only => n.arg
  }

  /** `setArg1`, `setArg2` or `setArg`. */
  function SetSlot(n: Node, s: Slot, a: Node): Node
    requires HasSlot(n, s)
  {
    match s
    case First => SetArg1(n, a)
    case Second => SetArg2(n, a)
    case Only => SetArg(n, a)
  }

  /** A path of slots leading from `n` down to one of its subtrees. */
  predicate ValidPath(n: Node, path: seq<Slot>)
    decreases |path|
  {
    path == [] || (HasSlot(n, path[0]) && ValidPath(GetSlot(n, path[0]), path[1..]))
  }

  /** The subtree at the end of `path`. */
  function At(n: Node, path: seq<Slot>): Node
    requires ValidPath(n, path)
    decreases |path|
  {
    if path == [] then n else At(GetSlot(n, path[0]), path[1..])
  }

  /**
   * The tree after the node at the end of `path` has had its subtree
   * replaced by `sub`: the getters down the path, then a setter at the
   * end, with each node on the way rebuilt around its new argument.
   */
  function ReplaceAt(n: Node, path: seq<Slot>, sub: Node): Node
    requires ValidPath(n, path)
    decreases |path|
  {
    if path == [] then sub
    else SetSlot(n, path[0], ReplaceAt(GetSlot(n, path[0]), path[1..], sub))
  }

  /** Replacing a subtree puts `sub` at the end of the path, which stays valid. */
  lemma {:induction false} AtReplaceAt(n: Node, path: seq<Slot>, sub: Node)
    requires ValidPath(n, path)
    ensures ValidPath(ReplaceAt(n, path, sub), path)
    ensures At(ReplaceAt(n, path, sub), path) == sub
    decreases |path|
  {
    if path != [] {
      var s := path[0];
      AtReplaceAt(GetSlot(n, s), path[1..], sub);
      assert GetSlot(ReplaceAt(n, path, sub), s) == ReplaceAt(GetSlot(n, s), path[1..], sub);
    }
  }

  /** Putting back the subtree that is already at the end of a path changes nothing. */
  lemma {:induction false} ReplaceAtSelf(n: Node, path: seq<Slot>)
    requires ValidPath(n, path)
    ensures ReplaceAt(n, path, At(n, path)) == n
    decreases |path|
  {
    if path != [] {
      ReplaceAtSelf(GetSlot(n, path[0]), path[1..]);
    }
  }

  /**
   * Rendering is compositional: a tree's rendering depends on each of its
   * subtrees only through that subtree's rendering, so replacing a subtree
   * by one that renders the same leaves the whole rendering unchanged.
   */
  lemma {:induction false} ReplacementPreservesRepr(n: Node, path: seq<Slot>, s1: Node, s2: Node, p: Primitives)
    requires ValidPath(n, path)
    requires Repr(s1, p) == Repr(s2, p)
    ensures Repr(ReplaceAt(n, path, s1), p) == Repr(ReplaceAt(n, path, s2), p)
    decreases |path|
  {
    if path != [] {
      ReplacementPreservesRepr(GetSlot(n, path[0]), path[1..], s1, s2, p);
    }
  }

  /** No node above the end of `path` is a `Power`, whose layout is not shown. */
  predicate PowerFreePath(n: Node, path: seq<Slot>)
    requires ValidPath(n, path)
    decreases |path|
  {
    path == [] || (!n.Power? && PowerFreePath(GetSlot(n, path[0]), path[1..]))
  }

  /**
   * Below arithmetic and standard-library operators, a subtree's rendering
   * appears verbatim inside the whole tree's rendering.
   */
  lemma {:induction false} SubtreeReprEmbedded(n: Node, path: seq<Slot>, p: Primitives)
    returns (before: string, after: string)
    requires ValidPath(n, path) && PowerFreePath(n, path)
    ensures Repr(n, p) == before + Repr(At(n, path), p) + after
    decreases |path|
  {
    if path == [] {
      before, after := "", "";
    } else {
      var b, a := SubtreeReprEmbedded(GetSlot(n, path[0]), path[1..], p);
      var inner := Repr(At(n, path), p);
      assert Repr(GetSlot(n, path[0]), p) == b + inner + a;
      match path[0]
      case First =>
        before, after := b, a + n.operatorRepresentation + Repr(n.arg2, p);
      case Second =>
        before, after := Repr(n.arg1, p) + n.operatorRepresentation + b, a;
      case Only =>
        before, after := "std::" + n.fun + "(" + b, a + ")";
    }
  }

  // ------------------------------------------------------------------------
  // Trees of arithmetic operators

  /** A tree of arithmetic operators over variable and constant leaves. */
  predicate ArithmeticTree(n: Node)
  {
    match n
    case Arithmetic(_, a1, a2) => ArithmeticTree(a1) && ArithmeticTree(a2)
    case Variable(_) => true
    case Constant(_) => true
    case _ => false
  }

  /** The leaves of an arithmetic tree, left to right. */
  function Leaves(n: Node): seq<Node>
    requires ArithmeticTree(n)
  {
    if n.Arithmetic? then Leaves(n.arg1) + Leaves(n.arg2) else [n]
  }

  /** The operator texts of an arithmetic tree, left to right. */
  function OperatorTexts(n: Node): seq<string>
    requires ArithmeticTree(n)
  {
    if n.Arithmetic? then OperatorTexts(n.arg1) + [n.operatorRepresentation] + OperatorTexts(n.arg2) else []
  }

  /** The renderings of a list of nodes. */
  function ReprAll(ns: seq<Node>, p: Primitives): (r: seq<string>)
    ensures |r| == |ns|
  {
    if ns == [] then [] else [Repr(ns[0], p)] + ReprAll(ns[1..], p)
  }

  /** `items[0] + seps[0] + items[1] + ... + seps[k-1] + items[k]`. */
  function Interleave(items: seq<string>, seps: seq<string>): string
    requires |items| == |seps| + 1
    decreases |seps|
  {
    if seps == [] then items[0] else items[0] + seps[0] + Interleave(items[1..], seps[1..])
  }

  lemma {:induction false} ReprAllAppend(a: seq<Node>, b: seq<Node>, p: Primitives)
    ensures ReprAll(a + b, p) == ReprAll(a, p) + ReprAll(b, p)
  {
    if a == [] {
      assert a + b == b;
    } else {
      assert (a + b)[1..] == a[1..] + b;
      ReprAllAppend(a[1..], b, p);
    }
  }

  lemma {:induction false} InterleaveAppend(i1: seq<string>, s1: seq<string>, sep: string, i2: seq<string>, s2: seq<string>)
    requires |i1| == |s1| + 1 && |i2| == |s2| + 1
    ensures Interleave(i1 + i2, s1 + [sep] + s2) == Interleave(i1, s1) + sep + Interleave(i2, s2)
    decreases |s1|
  {
    if s1 == [] {
      assert (i1 + i2)[1..] == i2;
      assert ([sep] + s2)[1..] == s2;
    } else {
      InterleaveAppend(i1[1..], s1[1..], sep, i2, s2);
      assert (i1 + i2)[1..] == i1[1..] + i2;
      assert (s1 + [sep] + s2)[1..] == s1[1..] + [sep] + s2;
    }
  }

  /**
   * An arithmetic tree with k leaves has k - 1 operators, and renders as
   * its leaves' renderings, left to right, with the operator texts between
   * them in order.
   */
  lemma {:induction false} ArithmeticTreeRepr(n: Node, p: Primitives)
    requires ArithmeticTree(n)
    ensures |OperatorTexts(n)| + 1 == |Leaves(n)|
    ensures Repr(n, p) == Interleave(ReprAll(Leaves(n), p), OperatorTexts(n))
  {
    if n.Arithmetic? {
      ArithmeticTreeRepr(n.arg1, p);
      ArithmeticTreeRepr(n.arg2, p);
      ReprAllAppend(Leaves(n.arg1), Leaves(n.arg2), p);
      InterleaveAppend(ReprAll(Leaves(n.arg1), p), OperatorTexts(n.arg1), n.operatorRepresentation,
                       ReprAll(Leaves(n.arg2), p), OperatorTexts(n.arg2));
    } else {
      assert ReprAll([n], p) == [Repr(n, p)];
    }
  }
}
