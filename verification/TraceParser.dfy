/** The trace-log parser of the health monitor: a single pass over the lines of the tail of the log.
 *
 * A line is given by what the parser asks of it, each question answered on its own, so that a line may look like
 * several things at once; the order in which the parser asks decides. Parsing a number or a time either succeeds
 * or fails.
 */
module TraceParser {
  import opened Options

  datatype Kind = Text | Voice | Callback | Other

  /** `ok` until a TOTAL line says otherwise; outcomes are only stored. */
  datatype Outcome = Fine | Reported(n: nat)

  datatype Totals = Totals(ms: int, iters: int, outcome: Outcome)

  datatype Line = Line(
    header: bool,            // contains "=== TRACE "
    fiveParts: bool,         // and splits into at least five parts
    stamp: Option<int>,      // the time in parts 3 and 4, if it parses
    webhook: bool,           // contains "webhook.received"
    kind: Kind,              // by the first "type=" it contains
    ack: bool,               // contains "ack.sent"
    ackMs: Option<int>,      // the bracketed duration, if it parses
    total: bool,             // starts with "------- TOTAL "
    totals: Option<Totals>)  // its numbers and outcome, if all of them parse

  datatype Trace = Trace(stamp: int, iters: int, totalMs: int, ackMs: Option<int>, kind: Option<Kind>, outcome: Outcome)

  // ---------------------------------------------------------------- the parser

  /** The effect of one line: the block in progress, and the block the line completes, if any. */
  function Advance(current: Option<Trace>, line: Line, cutoff: int): (Option<Trace>, seq<Trace>) {
    if line.header then
      if !line.fiveParts then (current, [])
      else if line.stamp.Some? then (Some(Trace(line.stamp.value, 0, 0, None, None, Fine)), [])
      else (None, [])
    else if line.webhook && current.Some? then (Some(current.value.(kind := Some(line.kind))), [])
    else if line.ack && current.Some? then
      (Some(if line.ackMs.Some? then current.value.(ackMs := line.ackMs) else current.value), [])
    else if line.total && current.Some? then
      (None,
       if line.totals.Some? && current.value.stamp >= cutoff
       then [current.value.(totalMs := line.totals.value.ms,
         iters := line.totals.value.iters, outcome := line.totals.value.outcome)]
       else [])
    else (current, [])
  }

  function Parse(current: Option<Trace>, lines: seq<Line>, cutoff: int): seq<Trace>
    decreases |lines|
  {
    if lines == [] then []
    else
      var (next, done) := Advance(current, lines[0], cutoff);
      done + Parse(next, lines[1..], cutoff)
  }

  /** The body of the loop: the block in progress, and what is appended to the traces. */
  method ReadLine(current: Option<Trace>, line: Line, cutoff: int) returns (next: Option<Trace>, done: seq<Trace>)
    ensures (next, done) == Advance(current, line, cutoff)
    ensures forall t | t in done :: t.stamp >= cutoff
  {
    next, done := current, [];
    if line.header {
      if line.fiveParts {
        next := if line.stamp.Some? then Some(Trace(line.stamp.value, 0, 0, None, None, Fine)) else None;
      }
    } else if line.webhook && current.Some? {
      next := Some(current.value.(kind := Some(line.kind)));
    } else if line.ack && current.Some? {
      if line.ackMs.Some? { next := Some(current.value.(ackMs := line.ackMs)); }
    } else if line.total && current.Some? {
      if line.totals.Some? {
        var finished := current.value.(totalMs := line.totals.value.ms,
          iters := line.totals.value.iters, outcome := line.totals.value.outcome);
        if finished.stamp >= cutoff { done := [finished]; }
      }
      next := None;
    }
  }

  /** The loop of `_recent_traces` over the lines it reads. */
  method RecentTraces(lines: seq<Line>, cutoff: int) returns (traces: seq<Trace>)
    ensures traces == Parse(None, lines, cutoff)
    ensures traces == Blocks(lines, |lines|, cutoff)
    ensures forall t | t in traces :: t.stamp >= cutoff
  {
    traces := [];
    var current: Option<Trace> := None;
    for i := 0 to |lines|
      invariant traces + Parse(current, lines[i..], cutoff) == Parse(None, lines, cutoff)
      invariant traces == Blocks(lines, i, cutoff) && current == Open(lines, i)
      invariant forall t | t in traces :: t.stamp >= cutoff
    {
      BlocksOneMore(lines, i, cutoff);
      ParseOneMore(current, lines, i, cutoff);
      ghost var before := traces;
      var next, done := ReadLine(current, lines[i], cutoff);
      traces := traces + done;
      current := next;
      assert before + (done + Parse(current, lines[i + 1..], cutoff)) ==
        traces + Parse(current, lines[i + 1..], cutoff);
    }
    assert lines[|lines|..] == [];
  }

  lemma ParseOneMore(current: Option<Trace>, lines: seq<Line>, i: nat, cutoff: int)
    requires i < |lines|
    ensures var (next, done) := Advance(current, lines[i], cutoff);
      Parse(current, lines[i..], cutoff) == done + Parse(next, lines[i + 1..], cutoff)
  {
  }

  /** One line takes the grammar where it takes the parser. */
  lemma BlocksOneMore(lines: seq<Line>, i: nat, cutoff: int)
    requires i < |lines|
    ensures var (next, done) := Advance(Open(lines, i), lines[i], cutoff);
      Open(lines, i + 1) == next && Blocks(lines, i + 1, cutoff) == Blocks(lines, i, cutoff) + done
  {
  }

  // ---------------------------------------------------------------- the grammar

  predicate GoodHeader(l: Line) { l.header && l.fiveParts && l.stamp.Some? }

  predicate BadHeader(l: Line) { l.header && l.fiveParts && l.stamp == None }

  predicate TotalLine(l: Line) { !l.header && !l.webhook && !l.ack && l.total }

  /** A line that ends or restarts a block. */
  predicate Boundary(l: Line) { GoodHeader(l) || BadHeader(l) || TotalLine(l) }

  /** The header of the block that is open before line n, found by looking back. */
  function HeaderBefore(lines: seq<Line>, n: nat): (h: Option<nat>)
    requires n <= |lines|
    ensures h.Some? ==> h.value < n
  {
    if n == 0 then None
    else if GoodHeader(lines[n - 1]) then Some(n - 1)
    else if Boundary(lines[n - 1]) then None
    else HeaderBefore(lines, n - 1)
  }

  /** It is the last good header, with no other boundary in between. */
  lemma {:induction false} HeaderBeforeIsLast(lines: seq<Line>, n: nat, h: nat)
    requires n <= |lines|
    ensures HeaderBefore(lines, n) == Some(h) <==>
      h < n && GoodHeader(lines[h]) && forall i | h < i < n :: !Boundary(lines[i])
  {
    if n > 0 { HeaderBeforeIsLast(lines, n - 1, h); }
  }

  /** The kind a block has: that of its last webhook line. */
  function KindBetween(lines: seq<Line>, h: nat, n: nat): Option<Kind>
    requires h < n <= |lines|
  {
    if n == h + 1 then None
    else if !lines[n - 1].header && lines[n - 1].webhook then Some(lines[n - 1].kind)
    else KindBetween(lines, h, n - 1)
  }

  /** The acknowledgement time it has: that of its last readable ack line. */
  function AckBetween(lines: seq<Line>, h: nat, n: nat): Option<int>
    requires h < n <= |lines|
  {
    if n == h + 1 then None
    else if !lines[n - 1].header && !lines[n - 1].webhook && lines[n - 1].ack && lines[n - 1].ackMs.Some?
      then lines[n - 1].ackMs
    else AckBetween(lines, h, n - 1)
  }

  function Open(lines: seq<Line>, n: nat): Option<Trace>
    requires n <= |lines|
  {
    var h := HeaderBefore(lines, n);
    if h == None || !GoodHeader(lines[h.value]) then None
    else Some(Trace(lines[h.value].stamp.value, 0, 0,
      AckBetween(lines, h.value, n), KindBetween(lines, h.value, n), Fine))
  }

  /** The blocks of the first n lines: from a last good header to the next TOTAL line, if that line reads and the
   *  header is not older than the cutoff. */
  function Blocks(lines: seq<Line>, n: nat, cutoff: int): seq<Trace>
    requires n <= |lines|
  {
    if n == 0 then []
    else
      var l, open := lines[n - 1], Open(lines, n - 1);
      Blocks(lines, n - 1, cutoff) +
      (if TotalLine(l) && l.totals.Some? && open.Some? && open.value.stamp >= cutoff
       then [open.value.(totalMs := l.totals.value.ms,
         iters := l.totals.value.iters, outcome := l.totals.value.outcome)]
       else [])
  }

  // ---------------------------------------------------------------- reading only the tail

  predicate IsSuffix(s: seq<Trace>, t: seq<Trace>) { |s| <= |t| && s == t[|t| - |s|..] }

  /** A block in progress at the start can add one trace in front, and nothing else. */
  lemma {:induction false} OpenBlockAddsInFront(current: Option<Trace>, lines: seq<Line>, cutoff: int)
    ensures IsSuffix(Parse(None, lines, cutoff), Parse(current, lines, cutoff))
    ensures |Parse(current, lines, cutoff)| <= |Parse(None, lines, cutoff)| + 1
    decreases |lines|
  {
    if lines != [] {
      OpenBlockAddsInFront(Advance(current, lines[0], cutoff).0, lines[1..], cutoff);
    }
  }

  /** The block in progress after the lines. */
  function Left(current: Option<Trace>, lines: seq<Line>, cutoff: int): Option<Trace>
    decreases |lines|
  {
    if lines == [] then current else Left(Advance(current, lines[0], cutoff).0, lines[1..], cutoff)
  }

  lemma {:induction false} ParseSplits(current: Option<Trace>, a: seq<Line>, b: seq<Line>, cutoff: int)
    ensures Parse(current, a + b, cutoff) == Parse(current, a, cutoff) + Parse(Left(current, a, cutoff), b, cutoff)
    decreases |a|
  {
    if a == [] {
      assert a + b == b;
    } else {
      var (next, done) := Advance(current, a[0], cutoff);
      ParseSplits(next, a[1..], b, cutoff);
      SplitStep(done, Parse(next, a[1..], cutoff), Parse(Left(next, a[1..], cutoff), b, cutoff));
      assert (a + b)[0] == a[0] && (a + b)[1..] == a[1..] + b;
    }
  }

  lemma SplitStep(a: seq<Trace>, b: seq<Trace>, c: seq<Trace>)
    ensures a + (b + c) == (a + b) + c
  {
  }

  /** Reading any tail of the log finds a suffix of what reading the whole log finds, also when the tail starts in
   *  the middle of a line, as long as the rest of that line is not taken for a header. */
  lemma TailFindsASuffix(log: seq<Line>, from: nat, fragment: Line, cutoff: int)
    requires from <= |log| && !GoodHeader(fragment)
    ensures IsSuffix(Parse(None, log[from..], cutoff), Parse(None, log, cutoff))
    ensures Parse(None, [fragment] + log[from..], cutoff) == Parse(None, log[from..], cutoff)
  {
    assert log == log[..from] + log[from..];
    ParseSplits(None, log[..from], log[from..], cutoff);
    var mid := Left(None, log[..from], cutoff);
    OpenBlockAddsInFront(mid, log[from..], cutoff);
    var whole, tail := Parse(None, log, cutoff), Parse(None, log[from..], cutoff);
    assert whole[|whole| - |tail|..] == Parse(mid, log[from..], cutoff)[|Parse(mid, log[from..], cutoff)| - |tail|..];
    assert ([fragment] + log[from..])[1..] == log[from..];
  }

  // ---------------------------------------------------------------- what the printer wrote

  /** A block as the tracer prints it: header, event lines, totals. The other answers about header and totals
   *  lines are left open. */
  datatype Block = Block(head: Line, body: seq<Line>, foot: Line)

  ghost predicate Printed(b: Block) {
    && GoodHeader(b.head)
    && (forall l | l in b.body :: !l.header && !TotalLine(l))
    && TotalLine(b.foot) && b.foot.totals.Some?
  }

  function Print(blocks: seq<Block>): seq<Line> {
    if blocks == [] then [] else [blocks[0].head] + blocks[0].body + [blocks[0].foot] + Print(blocks[1..])
  }

  function Fill(t: Trace, body: seq<Line>): Trace
    decreases |body|
  {
    if body == [] then t
    else
      var l := body[0];
      Fill(if l.webhook then t.(kind := Some(l.kind))
        else if l.ack && l.ackMs.Some? then t.(ackMs := l.ackMs) else t, body[1..])
  }

  /** What a printed block says. */
  function Meaning(b: Block): Trace
    requires b.head.stamp.Some? && b.foot.totals.Some?
  {
    Fill(Trace(b.head.stamp.value, 0, 0, None, None, Fine), b.body)
      .(totalMs := b.foot.totals.value.ms, iters := b.foot.totals.value.iters, outcome := b.foot.totals.value.outcome)
  }

  ghost predicate AllPrinted(blocks: seq<Block>) { forall i | 0 <= i < |blocks| :: Printed(blocks[i]) }

  function Recent(blocks: seq<Block>, cutoff: int): seq<Trace>
    requires forall i | 0 <= i < |blocks| :: blocks[i].head.stamp.Some? && blocks[i].foot.totals.Some?
  {
    if blocks == [] then []
    else (if blocks[0].head.stamp.value >= cutoff then [Meaning(blocks[0])] else []) + Recent(blocks[1..], cutoff)
  }

  lemma {:induction false} ParseBody(t: Trace, body: seq<Line>, foot: Line, rest: seq<Line>, cutoff: int)
    requires (forall l | l in body :: !l.header && !TotalLine(l)) && TotalLine(foot) && foot.totals.Some?
    ensures Parse(Some(t), body + [foot] + rest, cutoff) ==
      (if t.stamp >= cutoff
       then [Fill(t, body).(totalMs := foot.totals.value.ms,
         iters := foot.totals.value.iters, outcome := foot.totals.value.outcome)]
       else []) + Parse(None, rest, cutoff)
    ensures Fill(t, body).stamp == t.stamp
    decreases |body|
  {
    var lines := body + [foot] + rest;
    if body == [] {
      assert lines[0] == foot && lines[1..] == rest;
    } else {
      var l := body[0];
      assert l in body && forall k | k in body[1..] :: k in body;
      assert lines[0] == l && lines[1..] == body[1..] + [foot] + rest;
      ParseBody(if l.webhook then t.(kind := Some(l.kind))
        else if l.ack && l.ackMs.Some? then t.(ackMs := l.ackMs) else t,
                body[1..], foot, rest, cutoff);
    }
  }

  /** Parsing what was printed gives back what every recent block says, in order. */
  lemma {:induction false} ParsePrintRoundTrip(blocks: seq<Block>, cutoff: int)
    requires AllPrinted(blocks)
    ensures Parse(None, Print(blocks), cutoff) == Recent(blocks, cutoff)
  {
    if blocks != [] {
      assert forall i | 0 <= i < |blocks[1..]| ::
        Printed(blocks[1..][i]) by { assert forall i | 0 <= i < |blocks[1..]| :: blocks[1..][i] == blocks[i + 1]; }
      ParsePrintRoundTrip(blocks[1..], cutoff);
      ParsePrinted(blocks[0], Print(blocks[1..]), cutoff);
    }
  }

  lemma ParsePrinted(b: Block, rest: seq<Line>, cutoff: int)
    requires Printed(b)
    ensures Parse(None, [b.head] + b.body + [b.foot] + rest, cutoff) ==
      (if b.head.stamp.value >= cutoff then [Meaning(b)] else []) + Parse(None, rest, cutoff)
  {
    var lines := [b.head] + b.body + [b.foot] + rest;
    ParseBody(Trace(b.head.stamp.value, 0, 0, None, None, Fine), b.body, b.foot, rest, cutoff);
    assert lines[0] == b.head && lines[1..] == b.body + [b.foot] + rest;
  }
}
