/**
 * `convertToString(indentLevel)` of every node class: an indented prefix listing, one line per
 * node, each line being `indentLevel` tabs, the node's tag and a newline, followed by the lines of
 * the children at `indentLevel + 1`.
 *
 * A Literal prints `Double.valueOf(text)` in Java's double formatting; that conversion is the
 * parameter `show` here.
 */
module Printer {
  import opened Expressions

  /** The one-line tag a node prints before its children. */
  function Tag(e: Expr, show: string -> string): string {
    match e
    case Literal(t) => show(t)
    case Variable(n) => n
    case Additive(_, _, sub) => if sub then "-" else "+"
    case Multiplicative(_, _, div) => if div then "/" else "*"
    case Exponential(_, _) => "^"
    case Logarithmic(_) => "log"
    case Parenthetical(_) => "()"
  }

  /** `n` tab characters. */
  function Tabs(n: nat): (t: string)
    ensures |t| == n
    ensures forall i :: 0 <= i < n ==> t[i] == '\t'
  {
    seq(n, _ => '\t')
  }

  /** What `convertToString(k)` returns for `e`. */
  function Render(e: Expr, k: nat, show: string -> string): string {
    var head := Tabs(k) + Tag(e, show) + "\n";
    match e
    case Literal(_) => head
    case Variable(_) => head
    case Additive(l, r, _) => head + Render(l, k + 1, show) + Render(r, k + 1, show)
    case Multiplicative(l, r, _) => head + Render(l, k + 1, show) + Render(r, k + 1, show)
    case Exponential(b, p) => head + Render(b, k + 1, show) + Render(p, k + 1, show)
    case Logarithmic(a) => head + Render(a, k + 1, show)
    case Parenthetical(inner) => head + Render(inner, k + 1, show)
  }

  /** The loop every `convertToString` opens with: append "\t" `indentLevel` times. */
  method Indentation(indentLevel: nat) returns (indent: string)
    ensures |indent| == indentLevel
    ensures forall i :: 0 <= i < indentLevel ==> indent[i] == '\t'
  {
    indent := "";
    var i := 0;
    while i < indentLevel
      invariant 0 <= i <= indentLevel
      invariant |indent| == i
      invariant forall j :: 0 <= j < i ==> indent[j] == '\t'
    {
      indent := indent + "\t";
      i := i + 1;
    }
  }

  /** `convertToString(indentLevel)`, dispatched on the node class. */
  method ConvertToString(e: Expr, indentLevel: nat, show: string -> string) returns (s: string)
    ensures s == Render(e, indentLevel, show)
  {
    var indent := Indentation(indentLevel);
    assert indent == Tabs(indentLevel);
    var head := indent + Tag(e, show) + "\n";
    match e {
      case Literal(_) =>
        s := head;
      case Variable(_) =>
        s := head;
      case Additive(l, r, _) =>
        var left := ConvertToString(l, indentLevel + 1, show);
        var right := ConvertToString(r, indentLevel + 1, show);
        s := head + left + right;
      case Multiplicative(l, r, _) =>
        var left := ConvertToString(l, indentLevel + 1, show);
        var right := ConvertToString(r, indentLevel + 1, show);
        s := head + left + right;
      case Exponential(b, p) =>
        var base := ConvertToString(b, indentLevel + 1, show);
        var power := ConvertToString(p, indentLevel + 1, show);
        s := head + base + power;
      case Logarithmic(a) =>
        var argument := ConvertToString(a, indentLevel + 1, show);
        s := head + argument;
      case Parenthetical(inner) =>
        var expression := ConvertToString(inner, indentLevel + 1, show);
        s := head + expression;
    }
  }

  // ---------------------------------------------------------------------------------------------
  // The printed text as a list of lines: one per node, in preorder, indented by its depth.

  /** A node of a tree together with its depth below the root. */
  datatype Placed = Placed(node: Expr, depth: nat)

  function Deeper(ps: seq<Placed>): (r: seq<Placed>)
    ensures |r| == |ps|
    ensures forall i :: 0 <= i < |ps| ==> r[i] == Placed(ps[i].node, ps[i].depth + 1)
  {
    seq(|ps|, i requires 0 <= i < |ps| => Placed(ps[i].node, ps[i].depth + 1))
  }

  /** Every node of `e` in preorder (node first, then its children left to right), with its depth. */
  function Nodes(e: Expr): (ps: seq<Placed>)
    ensures |ps| == Size(e)
    ensures ps[0] == Placed(e, 0)
  {
    match e
    case Literal(_) => [Placed(e, 0)]
    case Variable(_) => [Placed(e, 0)]
    case Additive(l, r, _) => [Placed(e, 0)] + Deeper(Nodes(l)) + Deeper(Nodes(r))
    case Multiplicative(l, r, _) => [Placed(e, 0)] + Deeper(Nodes(l)) + Deeper(Nodes(r))
    case Exponential(b, p) => [Placed(e, 0)] + Deeper(Nodes(b)) + Deeper(Nodes(p))
    case Logarithmic(a) => [Placed(e, 0)] + Deeper(Nodes(a))
    case Parenthetical(inner) => [Placed(e, 0)] + Deeper(Nodes(inner))
  }

  /** One line per placed node: `k + depth` tabs, the tag, a newline. */
  function Outline(ps: seq<Placed>, k: nat, show: string -> string): string {
    if ps == [] then ""
    else Tabs(k + ps[0].depth) + Tag(ps[0].node, show) + "\n" + Outline(ps[1..], k, show)
  }

  lemma {:induction false} OutlineAppend(a: seq<Placed>, b: seq<Placed>, k: nat, show: string -> string)
    ensures Outline(a + b, k, show) == Outline(a, k, show) + Outline(b, k, show)
  {
    if a != [] {
      assert (a + b)[1..] == a[1..] + b;
      OutlineAppend(a[1..], b, k, show);
    } else {
      assert a + b == b;
    }
  }

  lemma {:induction false} OutlineDeeper(ps: seq<Placed>, k: nat, show: string -> string)
    ensures Outline(Deeper(ps), k, show) == Outline(ps, k + 1, show)
  {
    if ps != [] {
      assert Deeper(ps)[1..] == Deeper(ps[1..]);
      OutlineDeeper(ps[1..], k, show);
    }
  }

  /**
   * The printer's output is exactly one line per node, in preorder, and the line of a node at
   * depth d below the root is indented by `k + d` tabs.
   */
  lemma {:induction false} RenderIsOutline(e: Expr, k: nat, show: string -> string)
    ensures Render(e, k, show) == Outline(Nodes(e), k, show)
    decreases e, 1
  {
    var head := [Placed(e, 0)];
    assert Outline(head, k, show) == Tabs(k) + Tag(e, show) + "\n";
    match e
    case Literal(_) =>
    case Variable(_) =>
    case Additive(l, r, _) => RenderPair(e, l, r, k, show);
    case Multiplicative(l, r, _) => RenderPair(e, l, r, k, show);
    case Exponential(b, p) => RenderPair(e, b, p, k, show);
    case Logarithmic(a) => RenderSingle(e, a, k, show);
    case Parenthetical(inner) => RenderSingle(e, inner, k, show);
  }

  lemma {:induction false} RenderPair(e: Expr, l: Expr, r: Expr, k: nat, show: string -> string)
    requires e.Additive? || e.Multiplicative? || e.Exponential?
    requires (e.Exponential? ==> e.base == l && e.power == r)
    requires (!e.Exponential? ==> e.left == l && e.right == r)
    ensures Render(e, k, show) == Outline(Nodes(e), k, show)
    decreases e, 0
  {
    var head := [Placed(e, 0)];
    assert Outline(head, k, show) == Tabs(k) + Tag(e, show) + "\n";
    RenderIsOutline(l, k + 1, show);
    RenderIsOutline(r, k + 1, show);
    OutlineDeeper(Nodes(l), k, show);
    OutlineDeeper(Nodes(r), k, show);
    assert Nodes(e) == head + Deeper(Nodes(l)) + Deeper(Nodes(r));
    OutlineAppend(head + Deeper(Nodes(l)), Deeper(Nodes(r)), k, show);
    OutlineAppend(head, Deeper(Nodes(l)), k, show);
    assert Render(e, k, show) == Tabs(k) + Tag(e, show) + "\n" + Render(l, k + 1, show) + Render(r, k + 1, show);
  }

  lemma {:induction false} RenderSingle(e: Expr, a: Expr, k: nat, show: string -> string)
    requires e.Logarithmic? || e.Parenthetical?
    requires (e.Logarithmic? ==> e.argument == a) && (e.Parenthetical? ==> e.inner == a)
    ensures Render(e, k, show) == Outline(Nodes(e), k, show)
    decreases e, 0
  {
    var head := [Placed(e, 0)];
    assert Outline(head, k, show) == Tabs(k) + Tag(e, show) + "\n";
    RenderIsOutline(a, k + 1, show);
    OutlineDeeper(Nodes(a), k, show);
    assert Nodes(e) == head + Deeper(Nodes(a));
    OutlineAppend(head, Deeper(Nodes(a)), k, show);
    assert Render(e, k, show) == Tabs(k) + Tag(e, show) + "\n" + Render(a, k + 1, show);
  }

  // ---------------------------------------------------------------------------------------------
  // Line count.

  function CountNewlines(s: string): nat {
    if s == [] then 0 else (if s[0] == '\n' then 1 else 0) + CountNewlines(s[1..])
  }

  lemma {:induction false} CountNewlinesAppend(a: string, b: string)
    ensures CountNewlines(a + b) == CountNewlines(a) + CountNewlines(b)
  {
    if a != [] {
      assert (a + b)[1..] == a[1..] + b;
      CountNewlinesAppend(a[1..], b);
    } else {
      assert a + b == b;
    }
  }

  lemma {:induction false} NoNewline(s: string)
    requires '\n' !in s
    ensures CountNewlines(s) == 0
  {
    if s != [] {
      NoNewline(s[1..]);
    }
  }

  /**
   * When no tag contains a newline (Java's double formatting never does, and the parser names
   * every variable "x"), the printed text has exactly as many lines as the tree has nodes.
   */
  lemma {:induction false} OneLinePerNode(e: Expr, k: nat, show: string -> string)
    requires forall t :: '\n' !in show(t)
    requires VariablesNamedX(e)
    ensures CountNewlines(Render(e, k, show)) == Size(e)
  {
    match e
    case Literal(_) => HeadIsOneLine(e, k, show);
    case Variable(_) => HeadIsOneLine(e, k, show);
    case Additive(l, r, _) =>
      OneLinePerNode(l, k + 1, show);
      OneLinePerNode(r, k + 1, show);
      PairLines(e, l, r, k, show);
    case Multiplicative(l, r, _) =>
      OneLinePerNode(l, k + 1, show);
      OneLinePerNode(r, k + 1, show);
      PairLines(e, l, r, k, show);
    case Exponential(b, p) =>
      OneLinePerNode(b, k + 1, show);
      OneLinePerNode(p, k + 1, show);
      PairLines(e, b, p, k, show);
    case Logarithmic(a) =>
      OneLinePerNode(a, k + 1, show);
      SingleLines(e, a, k, show);
    case Parenthetical(inner) =>
      OneLinePerNode(inner, k + 1, show);
      SingleLines(e, inner, k, show);
  }

  /** A node with two children prints its own line and then theirs. */
  lemma PairLines(e: Expr, l: Expr, r: Expr, k: nat, show: string -> string)
    requires forall t :: '\n' !in show(t)
    requires e.Additive? || e.Multiplicative? || e.Exponential?
    requires (e.Exponential? ==> e.base == l && e.power == r)
    requires (!e.Exponential? ==> e.left == l && e.right == r)
    ensures CountNewlines(Render(e, k, show))
         == 1 + CountNewlines(Render(l, k + 1, show)) + CountNewlines(Render(r, k + 1, show))
  {
    HeadIsOneLine(e, k, show);
    var head := Tabs(k) + Tag(e, show) + "\n";
    CountNewlinesAppend3(head, Render(l, k + 1, show), Render(r, k + 1, show));
    assert Render(e, k, show) == head + Render(l, k + 1, show) + Render(r, k + 1, show);
  }

  /** A node with one child prints its own line and then the child's. */
  lemma SingleLines(e: Expr, a: Expr, k: nat, show: string -> string)
    requires forall t :: '\n' !in show(t)
    requires e.Logarithmic? || e.Parenthetical?
    requires (e.Logarithmic? ==> e.argument == a) && (e.Parenthetical? ==> e.inner == a)
    ensures CountNewlines(Render(e, k, show)) == 1 + CountNewlines(Render(a, k + 1, show))
  {
    HeadIsOneLine(e, k, show);
    var head := Tabs(k) + Tag(e, show) + "\n";
    CountNewlinesAppend(head, Render(a, k + 1, show));
    assert Render(e, k, show) == head + Render(a, k + 1, show);
  }

  /** The line a node prints before its children holds exactly one newline. */
  lemma HeadIsOneLine(e: Expr, k: nat, show: string -> string)
    requires forall t :: '\n' !in show(t)
    requires e.Variable? ==> e.name == "x"
    ensures CountNewlines(Tabs(k) + Tag(e, show) + "\n") == 1
    ensures e.Literal? || e.Variable? ==> CountNewlines(Render(e, k, show)) == 1
  {
    var tag := Tag(e, show);
    assert '\n' !in tag by {
      if e.Literal? {
        assert tag == show(e.text);
      }
    }
    NoNewline(Tabs(k));
    NoNewline(tag);
    CountNewlinesAppend(Tabs(k), tag);
    CountNewlinesAppend(Tabs(k) + tag, "\n");
  }

  lemma CountNewlinesAppend3(a: string, b: string, c: string)
    ensures CountNewlines(a + b + c) == CountNewlines(a) + CountNewlines(b) + CountNewlines(c)
  {
    CountNewlinesAppend(a, b);
    CountNewlinesAppend(a + b, c);
  }

  /** A deep copy prints exactly as the original does, for every tree the parser builds. */
  lemma CopyPrintsAlike(e: Expr, k: nat, show: string -> string)
    requires VariablesNamedX(e)
    ensures Render(DeepCopy(e), k, show) == Render(e, k, show)
  {
    DeepCopyIsIdentity(e);
  }
}
