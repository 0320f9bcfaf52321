/**
 * The plain-text visitor (`Visitor/Plaintext.php`): after a walk it draws
 * the recorded edges as an indented outline with box-drawing glyphs, one
 * line per child, labelled with the child's `label` field.
 *
 * The edges a visitor records do not by themselves exclude a cycle, on which
 * the source's recursion would not end; the outline therefore carries a
 * `fuel` bound on its depth.
 */
module Plaintext {
  import opened Wrappers
  import opened TreeTable
  import opened TreeVisitor

  /** The four glyphs of a symbol set. */
  datatype Symbols = Symbols(pipe: char, tee: char, line: char, corner: char)

  const SYMBOL_ASCII: int := 1
  const SYMBOL_UTF8: int := 2

  /** The constructor's choice: the ASCII glyphs for `SYMBOL_ASCII`, the UTF-8 box-drawing glyphs for anything else. */
  function SymbolSet(charset: int): (s: Symbols)
    ensures s.pipe != '\n' && s.tee != '\n' && s.line != '\n' && s.corner != '\n'
    ensures charset == SYMBOL_ASCII <==> s.pipe == '|'
  {
    if charset == SYMBOL_ASCII then Symbols('|', '+', '-', '+')
    else Symbols('│', '├', '─', '└')
  }

  /** PHP's string conversion of a field value. */
  function ValueText(v: Value): (s: string)
    ensures v.Str? ==> s == v.s
    ensures v.Null? || v == Bool(false) || v == Str("") <==> s == ""
    ensures v.Int? && v.i >= 0 ==> DecimalValue(s) == Some(v.i)
  {
    match v
    case Null => ""
    case Bool(b) => if b then "1" else ""
    case Int(i) =>
      if i >= 0 then DecimalRoundTrip(i); DecimalString(i)
      else "-" + DecimalString(-i)
    case Str(s) => s
  }

  /** A child's label: its `label` field, or empty when it has none. */
  function Label(d: Data): string {
    if "label" in d then ValueText(d["label"]) else ""
  }

  // ---------------------------------------------------------------------
  // The outline

  /**
   * One line of the outline: for each ancestor level whether that ancestor
   * was the last of its siblings, whether this child is the last of its
   * siblings, and its label.
   */
  datatype Line = Line(cells: seq<bool>, last: bool, caption: string)

  /** The indentation of a line: two spaces below a last child, a pipe and a space otherwise. */
  function Indent(sym: Symbols, cells: seq<bool>): (s: string)
    ensures |s| == 2 * |cells|
  {
    if cells == [] then []
    else Indent(sym, cells[..|cells| - 1]) + (if cells[|cells| - 1] then "  " else [sym.pipe, ' '])
  }

  /** A drawn line: indentation, corner or tee, the line glyph, the label and a newline. */
  function Render(sym: Symbols, l: Line): string {
    Indent(sym, l.cells) + (if l.last then [sym.corner, sym.line] else [sym.tee, sym.line]) + l.caption + "\n"
  }

  /** The text `doChildren(id, |last|, last)` produces: for each child its drawn line, then the text for its children. */
  function Drawn(sym: Symbols, edges: Edges, id: Option<Id>, last: seq<bool>, fuel: nat): string
    decreases fuel, 1, 0
  {
    if fuel == 0 then "" else DrawnFrom(sym, edges, Kids(edges, id), 0, last, fuel)
  }

  /** The text for the children `cs[k..]` of one parent. */
  function DrawnFrom(sym: Symbols, edges: Edges, cs: seq<Child>, k: nat, last: seq<bool>, fuel: nat): string
    requires fuel >= 1
    decreases fuel, 0, |cs| - k
  {
    if k >= |cs| then ""
    else
      var isLast := k == |cs| - 1;
      Render(sym, Line(last, isLast, Label(cs[k].data)))
      + Drawn(sym, edges, Some(cs[k].id), last + [isLast], fuel - 1)
      + DrawnFrom(sym, edges, cs, k + 1, last, fuel)
  }

  /**
   * One turn of the loop in `doChildren`: the text so far, child `k`'s line
   * and its subtree's text leave exactly the text for the remaining children
   * to be drawn.
   */
  lemma DrawnStep(sym: Symbols, edges: Edges, cs: seq<Child>, k: nat, last: seq<bool>, fuel: nat,
                  isLast: bool, pad: string, glyphs: string, sub: string, text: string)
    requires fuel >= 1 && k < |cs| && isLast == (k + 1 == |cs|)
    requires pad == Indent(sym, last)
    requires glyphs == if isLast then [sym.corner, sym.line] else [sym.tee, sym.line]
    requires sub == Drawn(sym, edges, Some(cs[k].id), last + [isLast], fuel - 1)
    ensures text + DrawnFrom(sym, edges, cs, k, last, fuel)
            == (text + (pad + glyphs + Label(cs[k].data) + "\n") + sub) + DrawnFrom(sym, edges, cs, k + 1, last, fuel)
  {
    var line := pad + glyphs + Label(cs[k].data) + "\n";
    var rest := DrawnFrom(sym, edges, cs, k + 1, last, fuel);
    assert line == Render(sym, Line(last, isLast, Label(cs[k].data)));
    assert DrawnFrom(sym, edges, cs, k, last, fuel) == line + sub + rest;
    Regroup(text, line, sub, rest);
  }

  lemma Regroup(t: string, a: string, b: string, c: string)
    ensures t + (a + b + c) == (t + a + b) + c
  {
  }

  /** The indentation loop of `doChildren`: one cell per level. */
  method Indentation(sym: Symbols, last: seq<bool>) returns (pad: string)
    ensures pad == Indent(sym, last)
  {
    pad := "";
    for i := 0 to |last|
      invariant pad == Indent(sym, last[..i])
    {
      assert last[..i + 1][..i] == last[..i];
      pad := pad + (if last[i] then "  " else [sym.pipe, ' ']);
    }
    assert last[..|last|] == last;
  }

  /**
   * `doChildren`: for each recorded child of `id`, its indentation (one cell
   * per level, after `last`), a tee or, for the last child, a corner, the
   * line glyph, its label and a newline, followed by the lines of its own
   * children one level deeper.
   */
  method DoChildren(sym: Symbols, edges: Edges, id: Option<Id>, level: nat, last: seq<bool>, fuel: nat)
    returns (text: string)
    requires |last| == level
    ensures text == Drawn(sym, edges, id, last, fuel)
    decreases fuel, 1
  {
    text := "";
    if fuel == 0 {
      return;
    }
    var children := Kids(edges, id);
    text := DrawChildren(sym, edges, children, level, last, fuel);
  }

  /** The loop of `doChildren` over the recorded children `children` of one node. */
  method DrawChildren(sym: Symbols, edges: Edges, children: seq<Child>, level: nat, last: seq<bool>, fuel: nat)
    returns (text: string)
    requires |last| == level && fuel >= 1
    ensures text == DrawnFrom(sym, edges, children, 0, last, fuel)
    decreases fuel, 0
  {
    text := "";
    var numChildren := |children|;
    var count := 0;
    for k := 0 to numChildren
      invariant count == k
      invariant DrawnFrom(sym, edges, children, 0, last, fuel) == text + DrawnFrom(sym, edges, children, k, last, fuel)
    {
      count := count + 1;
      var pad := Indentation(sym, last);
      var glyphs: string;
      var isLast: bool;
      if count != numChildren {
        glyphs := [sym.tee, sym.line];
        isLast := false;
      } else {
        glyphs := [sym.corner, sym.line];
        isLast := true;
      }
      var line := pad + glyphs + Label(children[k].data) + "\n";
      var sub := DoChildren(sym, edges, Some(children[k].id), level + 1, last + [isLast], fuel - 1);
      DrawnStep(sym, edges, children, k, last, fuel, isLast, pad, glyphs, sub, text);
      text := text + line + sub;
    }
    assert text + "" == text;
  }

  // ---------------------------------------------------------------------
  // What the outline holds

  /** The number of newlines in a string. */
  function Newlines(s: string): nat {
    if s == [] then 0 else Newlines(s[..|s| - 1]) + (if s[|s| - 1] == '\n' then 1 else 0)
  }

  lemma {:induction false} NewlinesAppend(a: string, b: string)
    ensures Newlines(a + b) == Newlines(a) + Newlines(b)
    decreases |b|
  {
    if b == [] {
      assert a + b == a;
    } else {
      NewlinesAppend(a, b[..|b| - 1]);
      assert (a + b)[..|a + b| - 1] == a + b[..|b| - 1];
    }
  }

  lemma {:induction false} NoNewlines(s: string)
    requires forall i :: 0 <= i < |s| ==> s[i] != '\n'
    ensures Newlines(s) == 0
  {
    if s != [] {
      NoNewlines(s[..|s| - 1]);
    }
  }

  /** A drawn line holds one newline, at its end, when its glyphs and caption hold none. */
  lemma RenderNewlines(sym: Symbols, l: Line)
    requires sym.pipe != '\n' && sym.tee != '\n' && sym.line != '\n' && sym.corner != '\n'
    requires '\n' !in l.caption
    ensures Newlines(Render(sym, l)) == 1
  {
    var body := Indent(sym, l.cells) + (if l.last then [sym.corner, sym.line] else [sym.tee, sym.line]) + l.caption;
    IndentChars(sym, l.cells);
    NoNewlines(body);
    NewlinesAppend(body, "\n");
    assert Newlines("\n") == 1 by { assert "\n"[..0] == ""; }
    assert Render(sym, l) == body + "\n";
  }

  lemma {:induction false} IndentChars(sym: Symbols, cells: seq<bool>)
    ensures forall i :: 0 <= i < |Indent(sym, cells)| ==> Indent(sym, cells)[i] in {' ', sym.pipe}
  {
    if cells != [] {
      IndentChars(sym, cells[..|cells| - 1]);
    }
  }

  /**
   * The text `doChildren` draws for a node has exactly one line per recorded
   * descendant, when no label holds a newline.
   */
  lemma {:induction false} LinesPerDescendant(sym: Symbols, edges: Edges, id: Option<Id>, last: seq<bool>, fuel: nat)
    requires sym.pipe != '\n' && sym.tee != '\n' && sym.line != '\n' && sym.corner != '\n'
    requires forall c :: c in Preorder(edges, id, fuel) ==> '\n' !in Label(c.data)
    ensures Newlines(Drawn(sym, edges, id, last, fuel)) == |Preorder(edges, id, fuel)|
    decreases fuel, 1, 0
  {
    if fuel > 0 {
      LinesPerDescendantFrom(sym, edges, Kids(edges, id), 0, last, fuel);
    }
  }

  lemma {:induction false} LinesPerDescendantFrom(sym: Symbols, edges: Edges, cs: seq<Child>, k: nat, last: seq<bool>, fuel: nat)
    requires fuel >= 1
    requires sym.pipe != '\n' && sym.tee != '\n' && sym.line != '\n' && sym.corner != '\n'
    requires forall c :: c in PreorderFrom(edges, cs, k, fuel) ==> '\n' !in Label(c.data)
    ensures Newlines(DrawnFrom(sym, edges, cs, k, last, fuel)) == |PreorderFrom(edges, cs, k, fuel)|
    decreases fuel, 0, |cs| - k
  {
    if k < |cs| {
      var isLast := k == |cs| - 1;
      var here := Render(sym, Line(last, isLast, Label(cs[k].data)));
      var below := Drawn(sym, edges, Some(cs[k].id), last + [isLast], fuel - 1);
      var rest := DrawnFrom(sym, edges, cs, k + 1, last, fuel);
      var pb := Preorder(edges, Some(cs[k].id), fuel - 1);
      var pr := PreorderFrom(edges, cs, k + 1, fuel);
      assert PreorderFrom(edges, cs, k, fuel) == [cs[k]] + pb + pr;
      RenderNewlines(sym, Line(last, isLast, Label(cs[k].data)));
      LinesPerDescendant(sym, edges, Some(cs[k].id), last + [isLast], fuel - 1);
      LinesPerDescendantFrom(sym, edges, cs, k + 1, last, fuel);
      NewlinesAppend(here, below);
      NewlinesAppend(here + below, rest);
      assert DrawnFrom(sym, edges, cs, k, last, fuel) == here + below + rest;
      assert |PreorderFrom(edges, cs, k, fuel)| == 1 + |pb| + |pr|;
    }
  }

  // ---------------------------------------------------------------------
  // The visitor

  /** The text of the tree as written: the children of the null id, of which there are none. */
  function ToStringAsWritten(sym: Symbols, edges: Edges, fuel: nat): string {
    "(root)" + Drawn(sym, edges, None, [], fuel)
  }

  /** Whatever was recorded, the text as written is the bare `(root)`. */
  lemma ToStringAsWrittenIsBare(sym: Symbols, edges: Edges, fuel: nat)
    ensures ToStringAsWritten(sym, edges, fuel) == "(root)"
  {
    assert Drawn(sym, edges, None, [], fuel) == "";
  }

  /** A visitor that saw a root with one labelled child draws a one-line outline when started at the root. */
  lemma RootedTextShowsChild()
    ensures var edges := map[1 := [Child(2, map["label" := Str("a")])]];
      Drawn(SymbolSet(SYMBOL_ASCII), edges, Some(1), [], 2) == "+-a\n"
      && ToStringAsWritten(SymbolSet(SYMBOL_ASCII), edges, 2) == "(root)"
  {
    var edges: Edges := map[1 := [Child(2, map["label" := Str("a")])]];
    var sym := SymbolSet(SYMBOL_ASCII);
    var line := Line([], true, "a");
    assert Label(edges[1][0].data) == "a";
    assert Kids(edges, Some(2)) == [];
    assert Drawn(sym, edges, Some(2), [true], 1) == "";
    assert DrawnFrom(sym, edges, edges[1], 1, [], 2) == "";
    assert Render(sym, line) == "+-a\n";
    assert Drawn(sym, edges, Some(1), [], 2) == Render(sym, line);
    ToStringAsWrittenIsBare(sym, edges, 2);
  }

  /**
   * The plain-text visitor: the symbol set chosen at construction and the
   * state it records while visiting.
   */
  class PlaintextVisitor {
    const symbols: Symbols
    var root: Option<Id>
    var edges: Edges

    /** `new Iml_Tree_Visitor_Plaintext($symbolCharset)`. */
    constructor (charset: int)
      ensures symbols == SymbolSet(charset) && root == None && edges == map[]
    {
      symbols := SymbolSet(charset);
      root, edges := None, map[];
    }

    /** `visit`: the state recorded as every visitor records it; it always answers true. */
    method Visit(v: Visit) returns (ok: bool)
      modifies this
      ensures State(root, edges) == Recorded(old(State(root, edges)), v) && ok
    {
      var st := Recorded(State(root, edges), v);
      root, edges := st.root, st.edges;
      ok := true;
    }

    /** `__toString` as evidently intended: `(root)` followed by the outline below the recorded root. */
    method ToString(fuel: nat) returns (s: string)
      ensures s == "(root)" + Drawn(symbols, edges, root, [], fuel)
      ensures root.None? ==> s == ToStringAsWritten(symbols, edges, fuel)
    {
      var text := DoChildren(symbols, edges, root, 0, [], fuel);
      s := "(root)" + text;
    }
  }
}
