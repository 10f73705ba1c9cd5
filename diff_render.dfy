/**
 * The HTML rendering of a diff-match-patch edit script in the conflict
 * dialog: one `<span>` per operation, classed by its tag, with every newline
 * of the (escaped) text marked and finally turned into `<br>`.
 */
module DiffRender {
  import opened Wrappers

  /** diff-match-patch's operation tags. */
  const DiffDelete: int := -1
  const DiffEqual: int := 0
  const DiffInsert: int := 1

  /** One `[op, text]` pair of the edit script; `op` may hold any number. */
  datatype DiffOp = DiffOp(op: int, text: string)

  /** The marker put before each newline of an operation's text. */
  const CrMark: string := "<span class='ls-mark-cr'></span>"

  /** The opening tag of the span for a tag, classed by it, or None for a tag the loop skips. */
  function OpenTag(op: int): (t: Option<string>)
    ensures t.Some? <==> op == DiffDelete || op == DiffEqual || op == DiffInsert
    ensures t.Some? ==> '\n' !in t.value
  {
    if op == DiffDelete then Some("<span class='deleted'>")
    else if op == DiffEqual then Some("<span class='normal'>")
    else if op == DiffInsert then Some("<span class='added'>")
    else None
  }

  /** `s.replace(/\n/g, repl)`: every newline character of `s` replaced by `repl`. */
  function ReplaceNewlines(s: string, repl: string): string
  {
    if s == [] then []
    else (if s[0] == '\n' then repl else [s[0]]) + ReplaceNewlines(s[1..], repl)
  }

  /** The text one operation adds to the accumulated `diff` string. */
  function Span(d: DiffOp, escape: string -> string): string
  {
    match OpenTag(d.op)
    case None => ""
    case Some(open) => open + ReplaceNewlines(escape(d.text), CrMark + "\n") + "</span>"
  }

  /** The `diff` string after the loop has visited every operation of `ops`. */
  function Spans(ops: seq<DiffOp>, escape: string -> string): string
  {
    if ops == [] then ""
    else Spans(ops[..|ops| - 1], escape) + Span(ops[|ops| - 1], escape)
  }

  /** One more visited operation appends its span. */
  lemma {:induction false} SpansExtend(ops: seq<DiffOp>, i: nat, escape: string -> string)
    requires i < |ops|
    ensures Spans(ops[..i + 1], escape) == Spans(ops[..i], escape) + Span(ops[i], escape)
  {
    assert ops[..i + 1][..i] == ops[..i];
  }

  /** What is assigned to the diff pane: the spans with newlines turned into `<br>`. */
  function Rendered(ops: seq<DiffOp>, escape: string -> string): string
  {
    ReplaceNewlines(Spans(ops, escape), "<br>")
  }

  /** The rendering loop of the dialog and the final newline replacement. */
  method RenderDiff(ops: seq<DiffOp>, escape: string -> string) returns (html: string)
    ensures html == Rendered(ops, escape)
  {
    var diff := "";
    var i := 0;
    while i < |ops|
      invariant 0 <= i <= |ops|
      invariant diff == Spans(ops[..i], escape)
    {
      diff := diff + Span(ops[i], escape);
      SpansExtend(ops, i, escape);
      i := i + 1;
    }
    assert ops[..|ops|] == ops;
    html := ReplaceNewlines(diff, "<br>");
  }

  // ----- Reference form: one finished span per operation -----

  /** The span an operation finally shows: its class, and each newline as the marker followed by `<br>`. */
  function FinalSpan(d: DiffOp, escape: string -> string): string
  {
    match OpenTag(d.op)
    case None => ""
    case Some(open) => open + ReplaceNewlines(escape(d.text), CrMark + "<br>") + "</span>"
  }

  /** The finished spans of `ops`, in order. */
  function Joined(ops: seq<DiffOp>, escape: string -> string): string
  {
    if ops == [] then "" else FinalSpan(ops[0], escape) + Joined(ops[1..], escape)
  }

  // ----- Lemmas about newline replacement -----

  lemma {:induction false} ReplaceNewlinesAppend(a: string, b: string, repl: string)
    ensures ReplaceNewlines(a + b, repl) == ReplaceNewlines(a, repl) + ReplaceNewlines(b, repl)
    decreases |a|
  {
    if a == [] {
      assert a + b == b;
    } else {
      assert (a + b)[1..] == a[1..] + b;
      ReplaceNewlinesAppend(a[1..], b, repl);
    }
  }

  /** A replacement without a newline leaves no newline behind. */
  lemma {:induction false} ReplaceNewlinesRemovesAll(s: string, repl: string)
    requires '\n' !in repl
    ensures '\n' !in ReplaceNewlines(s, repl)
    decreases |s|
  {
    if s != [] {
      ReplaceNewlinesRemovesAll(s[1..], repl);
    }
  }

  /** Text without newlines is left as it is. */
  lemma {:induction false} ReplaceNewlinesIdentity(s: string, repl: string)
    requires '\n' !in s
    ensures ReplaceNewlines(s, repl) == s
    decreases |s|
  {
    if s != [] {
      assert s[0] in s;
      ReplaceNewlinesIdentity(s[1..], repl);
    }
  }

  /** Marking each newline and then replacing newlines by `br` is one replacement by marker + `br`. */
  lemma {:induction false} ReplaceNewlinesTwice(s: string, mark: string, br: string)
    requires '\n' !in mark
    ensures ReplaceNewlines(ReplaceNewlines(s, mark + "\n"), br) == ReplaceNewlines(s, mark + br)
    decreases |s|
  {
    if s != [] {
      var nl := mark + "\n";
      var piece := if s[0] == '\n' then nl else [s[0]];
      ReplaceNewlinesAppend(piece, ReplaceNewlines(s[1..], nl), br);
      ReplaceNewlinesTwice(s[1..], mark, br);
      if s[0] == '\n' {
        ReplaceNewlinesAppend(mark, "\n", br);
        ReplaceNewlinesIdentity(mark, br);
      }
    }
  }

  // ----- Lemmas about the rendering -----

  lemma {:induction false} CrMarkHasNoNewline()
    ensures '\n' !in CrMark
  {
  }

  /** Finishing a span whose tags hold no newline only touches its marked body. */
  lemma {:induction false} FinishWrapped(open: string, t: string, close: string, br: string)
    requires '\n' !in open && '\n' !in close
    ensures ReplaceNewlines(open + ReplaceNewlines(t, CrMark + "\n") + close, br)
            == open + ReplaceNewlines(t, CrMark + br) + close
  {
    var body := ReplaceNewlines(t, CrMark + "\n");
    var finished := ReplaceNewlines(t, CrMark + br);
    CrMarkHasNoNewline();
    ReplaceNewlinesTwice(t, CrMark, br);
    assert open + body + close == open + (body + close);
    ReplaceNewlinesAppend(open, body + close, br);
    ReplaceNewlinesAppend(body, close, br);
    ReplaceNewlinesIdentity(open, br);
    ReplaceNewlinesIdentity(close, br);
    assert ReplaceNewlines(open + body + close, br) == open + (finished + close);
  }

  /** The last replacement turns one accumulated span into its finished form. */
  lemma {:induction false} SpanFinishes(d: DiffOp, escape: string -> string)
    ensures ReplaceNewlines(Span(d, escape), "<br>") == FinalSpan(d, escape)
  {
    match OpenTag(d.op)
    case None =>
    case Some(open) =>
      FinishWrapped(open, escape(d.text), "</span>", "<br>");
  }

  lemma {:induction false} JoinedSnoc(ops: seq<DiffOp>, d: DiffOp, escape: string -> string)
    ensures Joined(ops + [d], escape) == Joined(ops, escape) + FinalSpan(d, escape)
    decreases |ops|
  {
    if ops == [] {
      assert Joined([d], escape) == FinalSpan(d, escape) + Joined([], escape);
    } else {
      assert (ops + [d])[1..] == ops[1..] + [d];
      JoinedSnoc(ops[1..], d, escape);
    }
  }

  /**
   * The rendered diff is the in-order concatenation of one finished span per
   * operation; an operation with an unknown tag contributes nothing.
   */
  lemma {:induction false} RenderedIsJoined(ops: seq<DiffOp>, escape: string -> string)
    ensures Rendered(ops, escape) == Joined(ops, escape)
    decreases |ops|
  {
    if ops != [] {
      var init := ops[..|ops| - 1];
      var last := ops[|ops| - 1];
      assert init + [last] == ops;
      assert Spans(ops, escape) == Spans(init, escape) + Span(last, escape);
      ReplaceNewlinesAppend(Spans(init, escape), Span(last, escape), "<br>");
      assert Rendered(ops, escape) == Rendered(init, escape) + ReplaceNewlines(Span(last, escape), "<br>");
      RenderedIsJoined(init, escape);
      SpanFinishes(last, escape);
      JoinedSnoc(init, last, escape);
    }
  }

  /** Rendering two scripts one after the other is rendering their concatenation. */
  lemma {:induction false} RenderedAppend(a: seq<DiffOp>, b: seq<DiffOp>, escape: string -> string)
    ensures Rendered(a + b, escape) == Rendered(a, escape) + Rendered(b, escape)
  {
    RenderedIsJoined(a + b, escape);
    RenderedIsJoined(a, escape);
    RenderedIsJoined(b, escape);
    JoinedAppend(a, b, escape);
  }

  lemma {:induction false} JoinedAppend(a: seq<DiffOp>, b: seq<DiffOp>, escape: string -> string)
    ensures Joined(a + b, escape) == Joined(a, escape) + Joined(b, escape)
    decreases |a|
  {
    if a == [] {
      assert a + b == b;
    } else {
      assert (a + b)[1..] == a[1..] + b;
      JoinedAppend(a[1..], b, escape);
    }
  }

  /** The rendered diff never contains a newline character. */
  lemma {:induction false} RenderedHasNoNewline(ops: seq<DiffOp>, escape: string -> string)
    ensures '\n' !in Rendered(ops, escape)
  {
    ReplaceNewlinesRemovesAll(Spans(ops, escape), "<br>");
  }

  /** Each tag's span: an unknown tag renders to nothing, a known one to its classed span. */
  lemma {:induction false} RenderedSingle(d: DiffOp, escape: string -> string)
    ensures d.op == DiffDelete ==>
      Rendered([d], escape)
      == "<span class='deleted'>" + ReplaceNewlines(escape(d.text), CrMark + "<br>") + "</span>"
    ensures d.op == DiffEqual ==>
      Rendered([d], escape)
      == "<span class='normal'>" + ReplaceNewlines(escape(d.text), CrMark + "<br>") + "</span>"
    ensures d.op == DiffInsert ==>
      Rendered([d], escape)
      == "<span class='added'>" + ReplaceNewlines(escape(d.text), CrMark + "<br>") + "</span>"
    ensures d.op !in {DiffDelete, DiffEqual, DiffInsert} ==> Rendered([d], escape) == ""
  {
    RenderedIsJoined([d], escape);
    assert [d][1..] == [];
    assert Joined([d], escape) == FinalSpan(d, escape);
  }
}
