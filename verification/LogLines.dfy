/**
 The text side of logging: handlers derived with extra attributes, the text a record is delivered as,
 and the writer that turns the SDK's output into one record per line.
 */
module LogLines {
  import opened Prelude

  // ---- Derived handlers ---------------------------------------------------

  datatype Attr = Attr(key: string, value: string)

  /** " key=value" for each attribute, in order. */
  function RenderAttrs(attrs: seq<Attr>): string {
    if attrs == [] then ""
    else RenderAttrs(attrs[..|attrs| - 1]) + RenderAttr(attrs[|attrs| - 1])
  }

  function RenderAttr(a: Attr): string {
    " " + a.key + "=" + a.value
  }

  lemma RenderNext(attrs: seq<Attr>, i: nat)
    requires i < |attrs|
    ensures RenderAttrs(attrs[..i + 1]) == RenderAttrs(attrs[..i]) + RenderAttr(attrs[i])
  {
    assert attrs[..i + 1][..i] == attrs[..i];
  }

  /** One turn of the rendering loop. */
  lemma RenderStep(before: string, b: string, attrs: seq<Attr>, i: nat)
    requires i < |attrs| && b == before + RenderAttrs(attrs[..i])
    ensures b + RenderAttr(attrs[i]) == before + RenderAttrs(attrs[..i + 1])
  {
    RenderNext(attrs, i);
  }

  lemma Regroup<T>(a: seq<T>, b: seq<T>, c: seq<T>)
    ensures a + (b + c) == a + b + c
  {
  }

  lemma {:induction false} RenderAttrsConcat(a: seq<Attr>, b: seq<Attr>)
    ensures RenderAttrs(a + b) == RenderAttrs(a) + RenderAttrs(b)
  {
    if b == [] {
      assert a + b == a;
    } else {
      var n := |b| - 1;
      assert (a + b)[..|a + b| - 1] == a + b[..n];
      RenderAttrsConcat(a, b[..n]);
      Regroup(RenderAttrs(a), RenderAttrs(b[..n]), RenderAttr(b[n]));
    }
  }

  class CLogHandler {
    const attrs: array<Attr>

    constructor (attrs: array<Attr>)
      ensures this.attrs == attrs
    {
      this.attrs := attrs;
    }

    /** The derived handler owns a new array; this one and every other handler stay as they are. */
    method WithAttrs(more: array<Attr>) returns (h: CLogHandler)
      ensures fresh(h) && fresh(h.attrs)
      ensures h.attrs[..] == attrs[..] + more[..]
    {
      var own := attrs;
      var merged := new Attr[own.Length + more.Length];
      var i := 0;
      while i < own.Length
        invariant 0 <= i <= own.Length
        invariant merged[..i] == own[..i]
      {
        merged[i] := own[i];
        i := i + 1;
      }
      var j := 0;
      while j < more.Length
        invariant 0 <= j <= more.Length
        invariant merged[..own.Length + j] == own[..] + more[..j]
      {
        merged[own.Length + j] := more[j];
        j := j + 1;
      }
      h := new CLogHandler(merged);
    }

    /** The delivered text: the message, this handler's attributes, then the record's. */
    method DeliveredText(message: string, recordAttrs: seq<Attr>) returns (b: string)
      ensures b == message + RenderAttrs(attrs[..] + recordAttrs)
    {
      b := message;
      ghost var own := attrs[..];
      var i := 0;
      while i < attrs.Length
        invariant 0 <= i <= attrs.Length
        invariant b == message + RenderAttrs(own[..i])
      {
        RenderStep(message, b, own, i);
        b := b + RenderAttr(attrs[i]);
        i := i + 1;
      }
      assert own[..i] == own;
      ghost var before := b;
      var j := 0;
      while j < |recordAttrs|
        invariant 0 <= j <= |recordAttrs|
        invariant b == before + RenderAttrs(recordAttrs[..j])
      {
        RenderStep(before, b, recordAttrs, j);
        b := b + RenderAttr(recordAttrs[j]);
        j := j + 1;
      }
      assert recordAttrs[..j] == recordAttrs;
      RenderAttrsConcat(own, recordAttrs);
    }
  }

  /** Every attribute stands in the text as " key=value", after those before it and before those after it. */
  lemma AttributeInPlace(attrs: seq<Attr>, i: nat)
    requires i < |attrs|
    ensures RenderAttrs(attrs) ==
            RenderAttrs(attrs[..i]) + (" " + attrs[i].key + "=" + attrs[i].value) + RenderAttrs(attrs[i + 1..])
  {
    assert attrs == attrs[..i + 1] + attrs[i + 1..];
    RenderAttrsConcat(attrs[..i + 1], attrs[i + 1..]);
    RenderNext(attrs, i);
  }

  // ---- Trees of derived handlers ------------------------------------------

  /** One WithAttrs call: on which of the handlers there are so far, and with which attributes. */
  datatype Derivation = Derivation(parent: nat, attrs: seq<Attr>)

  /** Handler 0 is the root and handler k + 1 the one step k derives, so a parent comes before. */
  ghost predicate IsTree(steps: seq<Derivation>) {
    forall k: nat | k < |steps| :: steps[k].parent <= k
  }

  /** The attribute groups added on the way from the root to handler `k`. */
  function Path(steps: seq<Derivation>, k: nat): (groups: seq<seq<Attr>>)
    requires IsTree(steps) && k <= |steps|
  {
    if k == 0 then [] else Path(steps, steps[k - 1].parent) + [steps[k - 1].attrs]
  }

  function Flatten(groups: seq<seq<Attr>>): seq<Attr> {
    if groups == [] then [] else Flatten(groups[..|groups| - 1]) + groups[|groups| - 1]
  }

  function RenderGroups(groups: seq<seq<Attr>>): string {
    if groups == [] then "" else RenderGroups(groups[..|groups| - 1]) + RenderAttrs(groups[|groups| - 1])
  }

  lemma {:induction false} RenderFlatten(groups: seq<seq<Attr>>)
    ensures RenderAttrs(Flatten(groups)) == RenderGroups(groups)
  {
    if groups != [] {
      RenderFlatten(groups[..|groups| - 1]);
      RenderAttrsConcat(Flatten(groups[..|groups| - 1]), groups[|groups| - 1]);
    }
  }

  /** The attributes of handler `k` when the root has `own`. */
  function AttrsOn(own: seq<Attr>, steps: seq<Derivation>, k: nat): seq<Attr>
    requires IsTree(steps) && k <= |steps|
  {
    own + Flatten(Path(steps, k))
  }

  lemma AttrsNext(own: seq<Attr>, steps: seq<Derivation>, k: nat)
    requires IsTree(steps) && k < |steps|
    ensures AttrsOn(own, steps, k + 1) == AttrsOn(own, steps, steps[k].parent) + steps[k].attrs
  {
    var groups := Path(steps, k + 1);
    assert groups[..|groups| - 1] == Path(steps, steps[k].parent);
    Regroup(own, Flatten(Path(steps, steps[k].parent)), steps[k].attrs);
  }

  method DeriveOne(h: CLogHandler, added: seq<Attr>) returns (d: CLogHandler)
    ensures fresh(d) && fresh(d.attrs) && d.attrs[..] == h.attrs[..] + added
  {
    var more := new Attr[|added|](i requires 0 <= i < |added| => added[i]);
    assert more[..] == added;
    d := h.WithAttrs(more);
  }

  ghost predicate HandlersRight(hs: seq<CLogHandler>, own: seq<Attr>, steps: seq<Derivation>)
    reads set h | h in hs :: h.attrs
  {
    && IsTree(steps)
    && |hs| <= |steps| + 1
    && forall k: nat | k < |hs| :: hs[k].attrs[..] == AttrsOn(own, steps, k)
  }

  /**
   Any tree of derivations: each handler ends up with the root's attributes and then those of its own path,
   so no derivation, from whichever handler, altered another.
   */
  method DeriveAll(root: CLogHandler, steps: seq<Derivation>) returns (hs: seq<CLogHandler>)
    requires IsTree(steps)
    ensures |hs| == |steps| + 1 && hs[0] == root
    ensures HandlersRight(hs, root.attrs[..], steps)
  {
    hs := [root];
    for i := 0 to |steps|
      invariant |hs| == i + 1 && hs[0] == root
      invariant HandlersRight(hs, root.attrs[..], steps)
    {
      AttrsNext(root.attrs[..], steps, i);
      var h := DeriveOne(hs[steps[i].parent], steps[i].attrs);
      hs := hs + [h];
    }
  }

  /** The text handler `k` delivers: the message, the groups on its path in order, the record's own. */
  function TextOn(own: seq<Attr>, steps: seq<Derivation>, k: nat, message: string, last: seq<Attr>): string
    requires IsTree(steps) && k <= |steps|
  {
    message + (RenderAttrs(own) + RenderGroups(Path(steps, k)) + RenderAttrs(last))
  }

  /** Every handler of the tree delivers the text its path says. */
  method DeliverAll(root: CLogHandler, steps: seq<Derivation>, message: string, last: seq<Attr>)
    returns (texts: seq<string>)
    requires IsTree(steps)
    ensures |texts| == |steps| + 1
    ensures forall k: nat | k < |texts| :: texts[k] == TextOn(root.attrs[..], steps, k, message, last)
  {
    var hs := DeriveAll(root, steps);
    texts := [];
    for i := 0 to |hs|
      invariant |texts| == i && HandlersRight(hs, root.attrs[..], steps)
      invariant forall k: nat | k < i :: texts[k] == TextOn(root.attrs[..], steps, k, message, last)
    {
      assert hs[i].attrs[..] == AttrsOn(root.attrs[..], steps, i);
      TextIs(root.attrs[..], steps, i, message, last);
      var text := hs[i].DeliveredText(message, last);
      assert text == TextOn(root.attrs[..], steps, i, message, last);
      texts := texts + [text];
    }
  }

  lemma TextIs(own: seq<Attr>, steps: seq<Derivation>, k: nat, message: string, last: seq<Attr>)
    requires IsTree(steps) && k <= |steps|
    ensures message + RenderAttrs(AttrsOn(own, steps, k) + last) == TextOn(own, steps, k, message, last)
  {
    RenderAttrsConcat(AttrsOn(own, steps, k), last);
    RenderAttrsConcat(own, Flatten(Path(steps, k)));
    RenderFlatten(Path(steps, k));
  }

  // ---- Splitting output into records --------------------------------------

  const NL := '\n'

  /** The position of the first newline, or the length. */
  function LineEnd(p: string): (n: nat)
    ensures n <= |p|
    ensures NL !in p[..n]
    ensures n < |p| ==> p[n] == NL
  {
    if p == "" || p[0] == NL then 0 else
      var n := LineEnd(p[1..]);
      assert p[..1 + n] == [p[0]] + p[1..][..n];
      1 + n
  }

  /** The non-empty lines of `p`. */
  function Records(p: string): seq<string>
    decreases |p|
  {
    if p == "" then []
    else if p[0] == NL then Records(p[1..])
    else [p[..LineEnd(p)]] + Records(p[LineEnd(p)..])
  }

  /** strings.TrimRight(p, "\n"). */
  function TrimRight(p: string): string {
    if p != "" && p[|p| - 1] == NL then TrimRight(p[..|p| - 1]) else p
  }

  lemma NoBreakBefore(p: string, n: nat)
    requires n <= |p| && NL !in p[..n]
    ensures forall i: nat | i < n :: p[i] != NL
  {
    forall i: nat | i < n ensures p[i] != NL {
      assert p[..n][i] == p[i];
    }
  }

  lemma LineEndOf(p: string, n: nat)
    requires n <= |p| && NL !in p[..n] && (n < |p| ==> p[n] == NL)
    ensures LineEnd(p) == n
  {
    NoBreakBefore(p, n);
    NoBreakBefore(p, LineEnd(p));
  }

  lemma RecordsOfLine(p: string)
    ensures Records(p) == (if LineEnd(p) == 0 then [] else [p[..LineEnd(p)]]) + Records(p[LineEnd(p)..])
  {
  }

  /** Dropping the line break itself drops no record. */
  lemma RecordsAfterBreak(p: string, n: nat)
    requires n < |p| && p[n] == NL
    ensures Records(p[n..]) == Records(p[n + 1..])
  {
    assert p[n..][1..] == p[n + 1..];
  }

  function Kept(line: string): seq<string> {
    if line == "" then [] else [line]
  }

  /** The first line of `p`, unless it is empty, and then the records after its line break. */
  lemma FirstLine(p: string, n: nat)
    requires n == LineEnd(p)
    ensures Records(p) == Kept(p[..n]) + (if n < |p| then Records(p[n + 1..]) else [])
  {
    RecordsOfLine(p);
    if n < |p| {
      RecordsAfterBreak(p, n);
    }
  }

  lemma {:induction false} RecordsConcat(p: string, q: string)
    requires p == "" || p[|p| - 1] == NL || q == "" || q[0] == NL
    ensures Records(p + q) == Records(p) + Records(q)
    decreases |p|
  {
    if p == "" {
      assert p + q == q;
    } else if p[0] == NL {
      assert (p + q)[1..] == p[1..] + q;
      RecordsConcat(p[1..], q);
    } else {
      var n := LineEnd(p);
      assert (p + q)[..n] == p[..n];
      assert n == |p| ==> p[..n][n - 1] == p[|p| - 1];
      LineEndOf(p + q, n);
      assert (p + q)[n..] == p[n..] + q;
      RecordsConcat(p[n..], q);
    }
  }

  /** Splitting in the middle of a line cuts that one record in two. */
  lemma {:induction false} RecordsCut(p: string, q: string)
    requires p != "" && p[|p| - 1] != NL && q != "" && q[0] != NL
    ensures |Records(p + q)| + 1 == |Records(p)| + |Records(q)|
    decreases |p|
  {
    if p[0] == NL {
      assert (p + q)[1..] == p[1..] + q;
      RecordsCut(p[1..], q);
    } else {
      var n := LineEnd(p);
      if n < |p| {
        assert (p + q)[..n] == p[..n];
        LineEndOf(p + q, n);
        assert (p + q)[n..] == p[n..] + q;
        RecordsCut(p[n..], q);
      } else {
        JoinedLine(p, q);
      }
    }
  }

  /** The end of one piece and the start of the next make one record. */
  lemma JoinedLine(p: string, q: string)
    requires p != "" && LineEnd(p) == |p| && q != "" && q[0] != NL
    ensures Records(p) == [p]
    ensures Records(p + q) == [p + q[..LineEnd(q)]] + Records(q[LineEnd(q)..])
  {
    var m := LineEnd(q);
    assert (p + q)[..|p| + m] == p + q[..m];
    LineEndOf(p + q, |p| + m);
    assert (p + q)[|p| + m..] == q[m..];
    assert p[..|p|] == p && p[|p|..] == "";
  }

  /** Writing in two pieces logs the same records exactly when the cut is not inside a line. */
  lemma WritesComposeIff(p: string, q: string)
    ensures Records(p + q) == Records(p) + Records(q) <==>
            p == "" || p[|p| - 1] == NL || q == "" || q[0] == NL
  {
    if p == "" || p[|p| - 1] == NL || q == "" || q[0] == NL {
      RecordsConcat(p, q);
    } else {
      RecordsCut(p, q);
    }
  }

  /** The initial TrimRight drops no record. */
  lemma {:induction false} TrimKeepsRecords(p: string)
    ensures Records(TrimRight(p)) == Records(p)
    decreases |p|
  {
    if p != "" && p[|p| - 1] == NL {
      TrimKeepsRecords(p[..|p| - 1]);
      assert p == p[..|p| - 1] + [NL];
      RecordsConcat(p[..|p| - 1], [NL]);
    }
  }

  /** What the splitting loop still has to log, having come to `rest`; None once the last line is done. */
  function Left(rest: Option<string>): seq<string> {
    if rest.None? then [] else Records(rest.value)
  }

  /** The line after a break at `n`, if there is one. */
  function Onward(rest: string, n: nat): Option<string> {
    if n < |rest| then Some(rest[n + 1..]) else None
  }

  lemma SplitStep(all: seq<string>, done: seq<string>, rest: string, n: nat)
    requires all == done + Left(Some(rest)) && n == LineEnd(rest)
    ensures all == done + Kept(rest[..n]) + Left(Onward(rest, n))
  {
    FirstLine(rest, n);
    Regroup(done, Kept(rest[..n]), Left(Onward(rest, n)));
  }

  // ---- Records as maximal runs --------------------------------------------

  datatype Span = Span(lo: nat, hi: nat)

  /** The positions of the records of `p[from..]` in `p`. */
  function Spans(p: string, from: nat): seq<Span>
    requires from <= |p|
    decreases |p| - from
  {
    if from == |p| then []
    else if p[from] == NL then Spans(p, from + 1)
    else
      var hi := from + LineEnd(p[from..]);
      [Span(from, hi)] + Spans(p, hi)
  }

  /** A non-empty newline-free stretch that cannot be extended either way. */
  predicate MaximalRun(p: string, s: Span) {
    && s.lo < s.hi <= |p|
    && NL !in p[s.lo..s.hi]
    && (s.lo == 0 || p[s.lo - 1] == NL)
    && (s.hi == |p| || p[s.hi] == NL)
  }

  lemma {:induction false} SpansAreRecords(p: string, from: nat)
    requires from <= |p|
    ensures |Spans(p, from)| == |Records(p[from..])|
    ensures forall i: nat | i < |Spans(p, from)| ::
              Spans(p, from)[i].lo <= Spans(p, from)[i].hi <= |p| &&
              Records(p[from..])[i] == p[Spans(p, from)[i].lo..Spans(p, from)[i].hi]
    decreases |p| - from
  {
    if from < |p| {
      if p[from] == NL {
        assert p[from..][1..] == p[from + 1..];
        SpansAreRecords(p, from + 1);
      } else {
        var n := LineEnd(p[from..]);
        assert p[from..][n..] == p[from + n..];
        assert p[from..][..n] == p[from..from + n];
        SpansAreRecords(p, from + n);
      }
    }
  }

  lemma {:induction false} SpansAreMaximal(p: string, from: nat)
    requires from <= |p| && (from == 0 || from == |p| || p[from - 1] == NL || p[from] == NL)
    ensures forall i: nat | i < |Spans(p, from)| :: MaximalRun(p, Spans(p, from)[i]) && from <= Spans(p, from)[i].lo
    ensures forall i: nat | i + 1 < |Spans(p, from)| :: Spans(p, from)[i].hi < Spans(p, from)[i + 1].lo
    decreases |p| - from
  {
    if from < |p| {
      if p[from] == NL {
        SpansAreMaximal(p, from + 1);
      } else {
        var hi := from + LineEnd(p[from..]);
        assert p[from..][..hi - from] == p[from..hi];
        assert hi < |p| ==> p[from..][hi - from] == p[hi];
        SpansAreMaximal(p, hi);
      }
    }
  }

  lemma {:induction false} SpansAreComplete(p: string, from: nat, k: nat) returns (i: nat)
    requires from <= k < |p| && p[k] != NL
    ensures i < |Spans(p, from)| && Spans(p, from)[i].lo <= k < Spans(p, from)[i].hi
    decreases |p| - from
  {
    if p[from] == NL {
      i := SpansAreComplete(p, from + 1, k);
    } else {
      var hi := from + LineEnd(p[from..]);
      assert hi < |p| ==> p[from..][hi - from] == p[hi];
      if k < hi {
        i := 0;
      } else {
        var j := SpansAreComplete(p, hi, k);
        i := j + 1;
      }
    }
  }

  /** The records are exactly the maximal newline-free runs of the input, each once and in order. */
  lemma RecordsAreTheMaximalRuns(p: string, run: Span)
    ensures MaximalRun(p, run) <==> run in Spans(p, 0)
    ensures |Records(p)| == |Spans(p, 0)|
    ensures forall i: nat | i < |Spans(p, 0)| ::
              MaximalRun(p, Spans(p, 0)[i]) && Records(p)[i] == p[Spans(p, 0)[i].lo..Spans(p, 0)[i].hi]
    ensures forall i: nat | i + 1 < |Spans(p, 0)| :: Spans(p, 0)[i].hi < Spans(p, 0)[i + 1].lo
  {
    assert p[0..] == p;
    SpansAreRecords(p, 0);
    SpansAreMaximal(p, 0);
    if MaximalRun(p, run) {
      assert p[run.lo..run.hi][0] == p[run.lo];
      var i := SpansAreComplete(p, 0, run.lo);
      SameRun(p, run, Spans(p, 0)[i], run.lo);
    }
  }

  /** Two maximal runs sharing a position are the same run. */
  lemma SameRun(p: string, a: Span, b: Span, k: nat)
    requires MaximalRun(p, a) && MaximalRun(p, b) && a.lo <= k < a.hi && b.lo <= k < b.hi
    ensures a == b
  {
    assert forall s: Span, i: nat | (s == a || s == b) && s.lo <= i < s.hi :: p[i] != NL by {
      forall s: Span, i: nat | (s == a || s == b) && s.lo <= i < s.hi
        ensures p[i] != NL
      {
        assert p[s.lo..s.hi][i - s.lo] == p[i];
      }
    }
  }

  // ---- The writer ---------------------------------------------------------

  datatype Record = Record(level: int, text: string)

  function AtLevel(level: int, lines: seq<string>): seq<Record> {
    seq(|lines|, i requires 0 <= i < |lines| => Record(level, lines[i]))
  }

  lemma AtLevelConcat(level: int, a: seq<string>, b: seq<string>)
    ensures AtLevel(level, a + b) == AtLevel(level, a) + AtLevel(level, b)
  {
  }

  class HandlerWriter {
    const level: int
    /** The records handed to the installed handler so far. */
    var emitted: seq<Record>

    constructor (level: int)
      ensures this.level == level && emitted == []
    {
      this.level := level;
      emitted := [];
    }

    method EmitLine(line: string)
      modifies this
      ensures emitted == old(emitted) + AtLevel(level, Kept(line))
    {
      if line != "" {
        emitted := emitted + [Record(level, line)];
      }
    }

    /** Writes are never short, whatever is in them. */
    method Write(p: string) returns (n: nat)
      modifies this
      ensures emitted == old(emitted) + AtLevel(level, Records(p))
      ensures n == |p|
      ensures |emitted| == |old(emitted)| + |Records(p)|
      ensures forall k: nat | k < |Records(p)| ::
                emitted[|old(emitted)| + k].level == level && emitted[|old(emitted)| + k].text == Records(p)[k]
    {
      var s := TrimRight(p);
      TrimKeepsRecords(p);
      var rest := Some(s);
      ghost var done: seq<string> := [];
      while rest.Some?
        invariant emitted == old(emitted) + AtLevel(level, done)
        invariant Records(s) == done + Left(rest)
        decreases if rest.Some? then 1 + |rest.value| else 0
      {
        var end := LineEnd(rest.value);
        var line := rest.value[..end];
        SplitStep(Records(s), done, rest.value, end);
        EmitLine(line);
        AtLevelConcat(level, done, Kept(line));
        done := done + Kept(line);
        rest := Onward(rest.value, end);
      }
      n := |p|;
    }
  }
}
