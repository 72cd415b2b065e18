/** The kernel log: console text is cut into lines, each line becomes a record, and records go
    into a ring that keeps the last 2^17 bytes. `Log` is the log as a value, with every record
    ever emitted; `KernelLog` is the object. */
module KLog {
  import opened Common

  const BUF: nat := 131072
  const LINE_MAX: nat := 512
  const REC_MAX: nat := 576
  const LEVEL_DEFAULT: nat := 6
  const F_NEWLINE: nat := 2
  const NEWLINE: byte := 10

  // ---------------------------------------------------------------- records

  function Digit(d: nat): byte
    requires d < 16
  { if d < 10 then 48 + d else 87 + d }

  function Decimal(n: nat): seq<byte> { if n < 10 then [Digit(n)] else Decimal(n / 10) + [Digit(n % 10)] }

  function Hex(n: nat): seq<byte> { if n < 16 then [Digit(n)] else Hex(n / 16) + [Digit(n % 16)] }

  /** "level,seq,usec,flags;" */
  function Prefix(level: nat, seq_: nat, usec: nat, flags: nat): seq<byte> {
    Decimal(level % 8) + [44] + Decimal(seq_) + [44] + Decimal(usec) + [44] + Hex(flags) + [59]
  }

  function Take(s: seq<byte>, n: nat): seq<byte> { if |s| <= n then s else s[..n] }

  /** One record, in a buffer of fixed size. */
  function Record(level: nat, seq_: nat, usec: nat, flags: nat, text: seq<byte>): seq<byte> {
    var head := Take(Prefix(level, seq_, usec, flags), REC_MAX - 2);
    head + Take(text, REC_MAX - |head| - 1) + [NEWLINE]
  }

  // ---------------------------------------------------------------- the log as a value

  datatype Rec = Rec(level: nat, number: u32, usec: nat, flags: nat, text: seq<byte>)

  /** `records` is every record emitted so far; `pend` the line being collected, `trunc` what did
      not fit it, `level` its level, `esc` where the escape parser stands. */
  datatype Log = Log(records: seq<Rec>, recs: u32, nextSeq: u32, pend: seq<byte>, trunc: u32, level: nat, esc: nat)

  function EmptyLog(): Log { Log([], 0, 1, [], 0, LEVEL_DEFAULT, 0) }

  /** The bytes of the records, in order. */
  function Render(records: seq<Rec>): seq<byte> {
    if records == [] then []
    else
      var n := |records| - 1;
      var r := records[n];
      Render(records[..n]) + Record(r.level, r.number, r.usec, r.flags, r.text)
  }

  /** The last 2^17 bytes, or all of fewer. */
  function Retained(s: seq<byte>): seq<byte> { if |s| <= BUF then s else s[|s| - BUF..] }

  /** klog_emit; the n-th record finds the clock at clock(n). */
  function Emit(s: Log, flags: nat, text: seq<byte>, clock: nat -> nat): Log {
    if text == [] then s
    else s.(records := s.records + [Rec(s.level, s.nextSeq, clock(|s.records|), flags, text)],
            nextSeq := (s.nextSeq + 1) % TWO32, recs := (s.recs + 1) % TWO32)
  }

  /** klog_flush_line */
  function Flush(s: Log, clock: nat -> nat): Log { Emit(s, F_NEWLINE, s.pend, clock).(pend := [], trunc := 0) }

  /** Final bytes of an escape sequence; the comparison is on signed characters. */
  predicate Final(c: byte) { 0x40 <= c <= 0x7E }

  predicate Dropped(c: byte) { c >= 0x80 || (c < 0x20 && c != 9) }

  predicate InEscape(esc: nat) { esc == 1 || esc == 2 || esc == 3 }

  function EscNext(esc: nat, c: byte): nat {
    if esc == 1 then (if c == 91 || c == 93 then 2 else if c == 0x1B then 1 else 0)
    else if esc == 2 then (if c == 7 then 0 else if c == 0x1B then 3 else if Final(c) then 0 else 2)
    else (if c == 92 then 0 else 2)
  }

  /** One character of klog_feed. */
  function FeedChar(s: Log, level: nat, c: byte, clock: nat -> nat): Log {
    if InEscape(s.esc) then s.(esc := EscNext(s.esc, c))
    else if c == 0x1B then s.(esc := 1)
    else if c == 13 then s
    else if c == NEWLINE then Flush(s, clock)
    else if Dropped(c) then s
    else
      var s1 := if s.pend == [] then s.(level := level) else s;
      if |s1.pend| < LINE_MAX then s1.(pend := s1.pend + [c]) else s1.(trunc := (s1.trunc + 1) % TWO32)
  }

  function FeedAt(s: Log, level: nat, text: seq<byte>, clock: nat -> nat): Log {
    if text == [] then s else FeedChar(FeedAt(s, level, text[..|text| - 1], clock), level, text[|text| - 1], clock)
  }

  function Level(level: int): nat { if 0 <= level <= 7 then level else LEVEL_DEFAULT }

  /** klog_feed */
  function Feed(s: Log, level: int, text: seq<byte>, clock: nat -> nat): Log { FeedAt(s, Level(level), text, clock) }

  // ---------------------------------------------------------------- what is logged

  /** A character that reaches the log, with the level of the call that brought it. */
  datatype Shown = Shown(level: nat, c: byte)

  /** The escape parser alone. */
  function EscAfter(esc: nat, text: seq<byte>): nat {
    if text == [] then esc
    else
      var e, c := EscAfter(esc, text[..|text| - 1]), text[|text| - 1];
      if InEscape(e) then EscNext(e, c) else if c == 0x1B then 1 else e
  }

  /** The text without escape sequences and control characters, newlines kept. */
  function Visible(esc: nat, level: nat, text: seq<byte>): seq<Shown> {
    if text == [] then []
    else
      var before, c := text[..|text| - 1], text[|text| - 1];
      Visible(esc, level, before) +
      if InEscape(EscAfter(esc, before)) || (c != NEWLINE && Dropped(c)) then [] else [Shown(level, c)]
  }

  /** Text that is fed at a level, or a read of so many bytes. */
  datatype Call = Fed(level: int, text: seq<byte>) | WasRead(size: u32)

  function Do(s: Log, c: Call, clock: nat -> nat): Log {
    match c
    case Fed(level, text) => Feed(s, level, text, clock)
    case WasRead(size) => if size == 0 then s else Flush(s, clock)
  }

  function DoAll(s: Log, calls: seq<Call>, clock: nat -> nat): Log {
    if calls == [] then s else Do(DoAll(s, calls[..|calls| - 1], clock), calls[|calls| - 1], clock)
  }

  function EscOf(calls: seq<Call>): nat {
    if calls == [] then 0
    else
      var esc, c := EscOf(calls[..|calls| - 1]), calls[|calls| - 1];
      if c.Fed? then EscAfter(esc, c.text) else esc
  }

  /** What is shown by all calls together: a read ends the line, even within an escape sequence. */
  function Stream(calls: seq<Call>): seq<Shown> {
    if calls == [] then []
    else
      var n := |calls| - 1;
      Stream(calls[..n]) +
      match calls[n]
      case Fed(level, text) => Visible(EscOf(calls[..n]), Level(level), text)
      case WasRead(size) => if size == 0 then [] else [Shown(LEVEL_DEFAULT, NEWLINE)]
  }

  /** The non-empty lines that a newline ended, and what follows the last newline. */
  function Lines(shown: seq<Shown>): seq<seq<Shown>> {
    if shown == [] then []
    else
      var n := |shown| - 1;
      Lines(shown[..n]) + if shown[n].c == NEWLINE && Tail(shown[..n]) != [] then [Tail(shown[..n])] else []
  }

  function Tail(shown: seq<Shown>): seq<Shown> {
    if shown == [] || shown[|shown| - 1].c == NEWLINE then []
    else Tail(shown[..|shown| - 1]) + [shown[|shown| - 1]]
  }

  function Chars(shown: seq<Shown>): seq<byte> { seq(|shown|, i requires 0 <= i < |shown| => shown[i].c) }

  /** The log holds exactly these lines: each is a record, numbered in order, of its first 512
      characters at the level of its first; the tail is pending. */
  ghost predicate Holds(s: Log, lines: seq<seq<Shown>>, tail: seq<Shown>, clock: nat -> nat) {
    && |s.records| == |lines| && s.recs == |lines| % TWO32 && s.nextSeq == (|lines| + 1) % TWO32
    && (forall i | 0 <= i < |lines| :: lines[i] != []
          && s.records[i] == Rec(lines[i][0].level, (i + 1) % TWO32, clock(i), F_NEWLINE,
            Take(Chars(lines[i]), LINE_MAX)))
    && s.pend == Take(Chars(tail), LINE_MAX) && (tail != [] ==> s.level == tail[0].level)
    && s.trunc == (if |tail| <= LINE_MAX then 0 else |tail| - LINE_MAX) % TWO32
  }

  lemma NextNumber(n: nat)
    ensures (n % TWO32 + 1) % TWO32 == (n + 1) % TWO32
  {}

  lemma ShowNewline(s: Log, shown: seq<Shown>, level: nat, clock: nat -> nat)
    requires Holds(s, Lines(shown), Tail(shown), clock)
    ensures Holds(Flush(s, clock), Lines(shown + [Shown(level, NEWLINE)]), Tail(shown + [Shown(level, NEWLINE)]), clock)
  {
    hide Lines, Tail;
    LinesEnd(shown, level);
    var lines, tail := Lines(shown), Tail(shown);
    NextNumber(|lines|);
    NextNumber(|lines| + 1);
  }

  lemma LinesEnd(shown: seq<Shown>, level: nat)
    ensures Lines(shown + [Shown(level, NEWLINE)]) == Lines(shown) + if Tail(shown) != [] then [Tail(shown)] else []
    ensures Tail(shown + [Shown(level, NEWLINE)]) == []
  { assert (shown + [Shown(level, NEWLINE)])[..|shown|] == shown; }

  lemma LinesGo(shown: seq<Shown>, x: Shown)
    requires x.c != NEWLINE
    ensures Lines(shown + [x]) == Lines(shown) && Tail(shown + [x]) == Tail(shown) + [x]
  { assert (shown + [x])[..|shown|] == shown; }

  lemma ShowChar(s: Log, shown: seq<Shown>, level: nat, c: byte, clock: nat -> nat)
    requires Holds(s, Lines(shown), Tail(shown), clock) && c != NEWLINE && !Dropped(c) && !InEscape(s.esc)
    ensures Holds(FeedChar(s, level, c, clock), Lines(shown + [Shown(level, c)]), Tail(shown + [Shown(level, c)]),
      clock)
  {
    hide Lines, Tail;
    LinesGo(shown, Shown(level, c));
    var tail := Tail(shown);
    assert Chars(tail + [Shown(level, c)]) == Chars(tail) + [c];
    NextNumber(if |tail| <= LINE_MAX then 0 else |tail| - LINE_MAX);
  }

  lemma {:induction false} FeedShows(s: Log, shown: seq<Shown>, level: nat, text: seq<byte>, clock: nat -> nat)
    requires Holds(s, Lines(shown), Tail(shown), clock)
    ensures var all := shown + Visible(s.esc, level, text);
      Holds(FeedAt(s, level, text, clock), Lines(all), Tail(all), clock)
    ensures FeedAt(s, level, text, clock).esc == EscAfter(s.esc, text)
  {
    hide Holds, Lines, Tail;
    if text == [] {
      assert shown + [] == shown;
    } else {
      var before, c := text[..|text| - 1], text[|text| - 1];
      FeedShows(s, shown, level, before, clock);
      var m, v := FeedAt(s, level, before, clock), shown + Visible(s.esc, level, before);
      var next := if InEscape(m.esc) || (c != NEWLINE && Dropped(c)) then [] else [Shown(level, c)];
      assert shown + Visible(s.esc, level, text) == v + next;
      if next == [] {
        assert v + next == v;
        EscOnly(m, v, m.(esc := FeedChar(m, level, c, clock).esc), clock);
      } else if c == NEWLINE {
        ShowNewline(m, v, level, clock);
      } else {
        ShowChar(m, v, level, c, clock);
      }
    }
  }

  lemma EscOnly(s: Log, shown: seq<Shown>, s': Log, clock: nat -> nat)
    requires Holds(s, Lines(shown), Tail(shown), clock) && s' == s.(esc := s'.esc)
    ensures Holds(s', Lines(shown), Tail(shown), clock)
  {}

  /** The log after any calls, feeds at any levels mixed with reads: strip escape sequences and
      control characters from the text of all feeds together, split it at newlines and at reads, and
      drop empty lines. */
  lemma {:induction false} LogIs(calls: seq<Call>, clock: nat -> nat)
    ensures Holds(DoAll(EmptyLog(), calls, clock), Lines(Stream(calls)), Tail(Stream(calls)), clock)
    ensures DoAll(EmptyLog(), calls, clock).esc == EscOf(calls)
  {
    hide Lines, Tail;
    if calls == [] {
      NothingHolds(clock);
    } else {
      hide Holds, Flush;
      var n := |calls| - 1;
      LogIs(calls[..n], clock);
      var s, shown := DoAll(EmptyLog(), calls[..n], clock), Stream(calls[..n]);
      match calls[n] {
        case Fed(level, text) => FeedShows(s, shown, Level(level), text, clock);
        case WasRead(size) =>
          if size == 0 {
            assert shown + [] == shown;
          } else {
            ShowNewline(s, shown, LEVEL_DEFAULT, clock);
            FlushEsc(s, clock);
          }
      }
    }
  }

  lemma FlushEsc(s: Log, clock: nat -> nat)
    ensures Flush(s, clock).esc == s.esc
  {}

  lemma NothingHolds(clock: nat -> nat)
    ensures Holds(EmptyLog(), Lines([]), Tail([]), clock)
  {}

  // ---------------------------------------------------------------- how the text is cut

  /** The same log but for the times of its records. */
  ghost predicate SameButTime(a: Log, b: Log) {
    && a.(records := []) == b.(records := [])
    && |a.records| == |b.records|
    && forall i | 0 <= i < |a.records| :: a.records[i].(usec := 0) == b.records[i].(usec := 0)
  }

  lemma FlushAlike(a: Log, b: Log, clockA: nat -> nat, clockB: nat -> nat)
    requires SameButTime(a, b)
    ensures SameButTime(Flush(a, clockA), Flush(b, clockB))
  {}

  lemma FeedCharAlike(a: Log, b: Log, level: nat, c: byte, clockA: nat -> nat, clockB: nat -> nat)
    requires SameButTime(a, b)
    ensures SameButTime(FeedChar(a, level, c, clockA), FeedChar(b, level, c, clockB))
  {
    hide Flush;
    FlushAlike(a, b, clockA, clockB);
  }

  lemma {:induction false} FeedAlike(a: Log, b: Log, level: nat, text: seq<byte>, clockA: nat -> nat,
    clockB: nat -> nat)
    requires SameButTime(a, b)
    ensures SameButTime(FeedAt(a, level, text, clockA), FeedAt(b, level, text, clockB))
  {
    hide SameButTime, FeedChar;
    if text != [] {
      var before, c := text[..|text| - 1], text[|text| - 1];
      FeedAlike(a, b, level, before, clockA, clockB);
      FeedCharAlike(FeedAt(a, level, before, clockA), FeedAt(b, level, before, clockB), level, c, clockA, clockB);
    }
  }

  lemma {:induction false} FeedPieces(s: Log, level: nat, a: seq<byte>, b: seq<byte>, clock: nat -> nat)
    ensures FeedAt(FeedAt(s, level, a, clock), level, b, clock) == FeedAt(s, level, a + b, clock)
    decreases |b|
  {
    hide FeedChar;
    if b == [] {
      assert a + b == a;
    } else {
      var n := |b| - 1;
      FeedPieces(s, level, a, b[..n], clock);
      assert (a + b)[..|a + b| - 1] == a + b[..n];
    }
  }

  function Pieces(level: int, texts: seq<seq<byte>>): seq<Call> {
    seq(|texts|, i requires 0 <= i < |texts| => Fed(level, texts[i]))
  }

  function Joined(texts: seq<seq<byte>>): seq<byte> {
    if texts == [] then [] else Joined(texts[..|texts| - 1]) + texts[|texts| - 1]
  }

  /** Text fed whole under one clock and in any pieces under another gives the same log, record
      for record, but for the times of the records. */
  lemma {:induction false} FeedAnyPieces(a: Log, b: Log, level: int, texts: seq<seq<byte>>, clockA: nat -> nat,
    clockB: nat -> nat)
    requires SameButTime(a, b)
    ensures SameButTime(Feed(a, level, Joined(texts), clockA), DoAll(b, Pieces(level, texts), clockB))
  {
    hide SameButTime, FeedAt;
    var calls, lv := Pieces(level, texts), Level(level);
    if texts == [] {
      FeedNothing(a, lv, clockA);
    } else {
      var n := |texts| - 1;
      FeedAnyPieces(a, b, level, texts[..n], clockA, clockB);
      assert calls[..n] == Pieces(level, texts[..n]);
      FeedAlike(FeedAt(a, lv, Joined(texts[..n]), clockA), DoAll(b, calls[..n], clockB), lv, texts[n], clockA,
        clockB);
      FeedPieces(a, lv, Joined(texts[..n]), texts[n], clockA);
    }
  }

  lemma FeedNothing(s: Log, level: nat, clock: nat -> nat)
    ensures FeedAt(s, level, [], clock) == s
  {}

  lemma FeedNext(s: Log, level: nat, text: seq<byte>, i: nat, clock: nat -> nat)
    requires i < |text|
    ensures FeedAt(s, level, text[..i + 1], clock) == FeedChar(FeedAt(s, level, text[..i], clock), level, text[i],
      clock)
  {
    hide FeedChar;
    assert text[..i + 1][..i] == text[..i];
  }

  // ---------------------------------------------------------------- reading between two pieces

  /** After a read in mid-line the log has one record more than without it, for good. */
  ghost predicate Apart(a: Log, b: Log) {
    |b.records| == |a.records| + 1 && a.esc == b.esc && (a.pend == [] <==> b.pend == [])
  }

  /** The two logs after `shown` has followed the read: a without it, b with it. */
  ghost predicate Compared(s: Log, shown: seq<Shown>, a: Log, b: Log, clock: nat -> nat) {
    if shown == [] then a == s.(esc := a.esc) && b == Flush(s, clock).(esc := a.esc)
    else if shown[0].c == NEWLINE then SameButTime(a, b)
    else Apart(a, b)
  }

  lemma ComparedStep(s: Log, shown: seq<Shown>, a: Log, b: Log, level: nat, c: byte, clock: nat -> nat)
    requires s.pend != [] && Compared(s, shown, a, b, clock) && a.esc == b.esc
    ensures var next := if InEscape(a.esc) || (c != NEWLINE && Dropped(c)) then [] else [Shown(level, c)];
      Compared(s, shown + next, FeedChar(a, level, c, clock), FeedChar(b, level, c, clock), clock)
  {
    if shown == [] {
      assert shown + [Shown(level, c)] == [Shown(level, c)] && shown + [] == [];
    } else if shown[0].c == NEWLINE {
      FeedCharAlike(a, b, level, c, clock, clock);
    }
  }

  lemma {:induction false} ComparedFeed(s: Log, level: nat, text: seq<byte>, clock: nat -> nat)
    requires s.pend != []
    ensures var a, b := FeedAt(s, level, text, clock), FeedAt(Flush(s, clock), level, text, clock);
      && a.esc == b.esc == EscAfter(s.esc, text)
      && Compared(s, Visible(s.esc, level, text), a, b, clock)
  {
    hide Compared, Flush;
    if text == [] {
      ComparedStart(s, clock);
    } else {
      var before, c := text[..|text| - 1], text[|text| - 1];
      ComparedFeed(s, level, before, clock);
      var a, b := FeedAt(s, level, before, clock), FeedAt(Flush(s, clock), level, before, clock);
      ComparedStep(s, Visible(s.esc, level, before), a, b, level, c, clock);
      EscStep(a, level, c, clock);
      EscStep(b, level, c, clock);
    }
  }

  lemma ComparedStart(s: Log, clock: nat -> nat)
    ensures Compared(s, [], s, Flush(s, clock), clock) && Flush(s, clock).esc == s.esc
  {}

  lemma EscStep(s: Log, level: nat, c: byte, clock: nat -> nat)
    ensures FeedChar(s, level, c, clock).esc == if InEscape(s.esc) then EscNext(s.esc, c) else if c == 0x1B then 1
      else s.esc
  {}

  /** A read between two pieces of text leaves the log as it would have been, but for times, if and
      only if no line was pending, or the first character logged after it ends the line. */
  lemma ReadBetweenIff(s: Log, level: nat, text: seq<byte>, clock: nat -> nat)
    requires s.pend == [] ==> s.trunc == 0
    ensures SameButTime(FeedAt(s, level, text, clock), FeedAt(Flush(s, clock), level, text, clock)) <==>
      s.pend == [] || (var v := Visible(s.esc, level, text); v != [] && v[0].c == NEWLINE)
  {
    if s.pend == [] {
      FeedAlike(s, Flush(s, clock), level, text, clock, clock);
    } else {
      hide FeedAt, Visible;
      ComparedFeed(s, level, text, clock);
    }
  }

  /** A control sequence (escape, bracket, parameter bytes, one final byte) leaves no trace. */
  lemma EscapeStripped(s: Log, level: nat, params: seq<byte>, last: byte, clock: nat -> nat)
    requires s.esc == 0 && Final(last) && forall i | 0 <= i < |params| :: 0x20 <= params[i] < 0x40
    ensures FeedAt(s, level, [0x1B, 91] + params + [last], clock) == s
  {
    var text := [0x1B, 91] + params + [last];
    assert text[..|text| - 1] == [0x1B, 91] + params;
    InSequence(s, level, params, clock);
  }

  lemma {:induction false} InSequence(s: Log, level: nat, params: seq<byte>, clock: nat -> nat)
    requires s.esc == 0 && forall i | 0 <= i < |params| :: 0x20 <= params[i] < 0x40
    ensures FeedAt(s, level, [0x1B, 91] + params, clock) == s.(esc := 2)
  {
    var text := [0x1B, 91] + params;
    if params == [] {
      assert text[..1] == [0x1B] && text[..1][..0] == [] && text[1] == 91;
      assert FeedAt(s, level, text[..1], clock) == s.(esc := 1);
    } else {
      var n := |params| - 1;
      assert text[..|text| - 1] == [0x1B, 91] + params[..n];
      InSequence(s, level, params[..n], clock);
    }
  }

  /** Nothing is cut off an empty line. */
  lemma {:induction false} NoTruncWhenEmpty(s: Log, level: nat, text: seq<byte>, clock: nat -> nat)
    requires (s.pend == [] ==> s.trunc == 0) && |s.pend| <= LINE_MAX
    ensures var r := FeedAt(s, level, text, clock); (r.pend == [] ==> r.trunc == 0) && |r.pend| <= LINE_MAX
  {
    if text != [] { NoTruncWhenEmpty(s, level, text[..|text| - 1], clock); }
  }

  lemma {:induction false} DecimalLength(n: nat, k: nat, bound: nat)
    requires k > 0 && bound == Power(k) && n < bound
    ensures 1 <= |Decimal(n)| <= k
    decreases k
  {
    if n >= 10 {
      assert bound == 10 * Power(k - 1);
      DecimalLength(n / 10, k - 1, Power(k - 1));
    }
  }

  function Power(k: nat): nat { if k == 0 then 1 else 10 * Power(k - 1) }

  /** A whole line always fits its record: a 64-bit timestamp and a 32-bit sequence number leave
      room for 512 bytes. */
  lemma LineFits(s: Log, clock: nat -> nat)
    requires s.pend != [] && |s.pend| <= LINE_MAX && clock(|s.records|) < 0x1_0000_0000_0000_0000
    ensures Render(Flush(s, clock).records) ==
      Render(s.records) + Prefix(s.level, s.nextSeq, clock(|s.records|), F_NEWLINE) + s.pend + [NEWLINE]
  {
    hide Prefix, Record, Render;
    var usec := clock(|s.records|);
    PrefixLength(s.level, s.nextSeq, usec);
    RecordWhole(s.level, s.nextSeq, usec, F_NEWLINE, s.pend);
    RenderSnoc(s.records, Rec(s.level, s.nextSeq, usec, F_NEWLINE, s.pend));
    Reassociate(Render(s.records), Prefix(s.level, s.nextSeq, usec, F_NEWLINE), s.pend);
  }

  lemma Reassociate(a: seq<byte>, b: seq<byte>, c: seq<byte>)
    ensures a + (b + c + [NEWLINE]) == a + b + c + [NEWLINE]
  {}

  lemma RecordWhole(level: nat, seq_: nat, usec: nat, flags: nat, text: seq<byte>)
    requires |Prefix(level, seq_, usec, flags)| <= REC_MAX - 2 && |text| < REC_MAX - |Prefix(level, seq_, usec, flags)|
    ensures Record(level, seq_, usec, flags, text) == Prefix(level, seq_, usec, flags) + text + [NEWLINE]
  { hide Prefix; }

  lemma PrefixLength(level: nat, seq_: u32, usec: nat)
    requires usec < 0x1_0000_0000_0000_0000
    ensures |Prefix(level, seq_, usec, F_NEWLINE)| <= 36
  {
    hide Decimal, Power;
    TenPowers();
    DecimalLength(level % 8, 1, Power(1));
    DecimalLength(seq_, 10, Power(10));
    DecimalLength(usec, 20, Power(20));
  }

  lemma TenPowers()
    ensures Power(1) == 10 && Power(10) == 10_000_000_000 && Power(20) == 100_000_000_000_000_000_000
  {
    assert Power(4) == 10_000 && Power(7) == 10_000_000;
    assert Power(13) == 10_000_000_000_000 by { assert Power(10) == 10_000_000_000; }
    assert Power(16) == 10_000_000_000_000_000;
    assert Power(19) == 10_000_000_000_000_000_000;
  }

  // ---------------------------------------------------------------- the ring

  function Held(n: nat): (h: nat)
    ensures h <= n && h <= BUF
  { if n <= BUF then n else BUF }

  /** Each retained byte stands at its logical index modulo the size of the ring. */
  ghost predicate Stored(buf: seq<byte>, all: seq<byte>) {
    |buf| == BUF && forall k {:trigger all[k]} | |all| - Held(|all|) <= k < |all| :: buf[k % BUF] == all[k]
  }

  lemma StoredPush(buf: seq<byte>, all: seq<byte>, c: byte)
    requires Stored(buf, all)
    ensures Stored(buf[|all| % BUF := c], all + [c])
  {
    var b, a := buf[|all| % BUF := c], all + [c];
    forall k {:trigger a[k]} | |a| - Held(|a|) <= k < |a| ensures b[k % BUF] == a[k] {
      if k < |all| { OtherSlot(|all|, k); assert a[k] == all[k]; }
    }
  }

  /** A piece that does not cross the end of the ring is a piece of the log. */
  lemma StoredPiece(buf: seq<byte>, all: seq<byte>, g: nat, n: nat)
    requires Stored(buf, all) && |all| - Held(|all|) <= g && g + n <= |all| && g % BUF + n <= BUF
    ensures buf[g % BUF..g % BUF + n] == all[g..g + n]
  {
    var piece, part := buf[g % BUF..g % BUF + n], all[g..g + n];
    forall j | 0 <= j < n ensures piece[j] == part[j] {
      SlotPlus(g, j);
      assert buf[(g + j) % BUF] == all[g + j];
    }
  }

  lemma SlotPlus(g: nat, j: nat)
    requires g % BUF + j < BUF
    ensures (g + j) % BUF == g % BUF + j
  {}

  lemma OtherSlot(n: nat, k: nat)
    requires n - BUF < k < n
    ensures k % BUF != n % BUF
  {}

  /** Wrapped indices still give the number of bytes held and the slot. */
  lemma Indices(n: nat)
    ensures (n % TWO32 - (n - Held(n)) % TWO32) % TWO32 == Held(n) && (n % TWO32) % BUF == n % BUF
    ensures (n % TWO32 + 1) % TWO32 == (n + 1) % TWO32
  {
    AddMod(n, 1);
    Difference(n, Held(n));
    SlotOfWrapped(n);
  }

  lemma Difference(n: nat, h: nat)
    requires h <= n && h < TWO32
    ensures (n % TWO32 - (n - h) % TWO32) % TWO32 == h
  {
    var q, r := n / TWO32, n % TWO32;
    assert n == TWO32 * q + r;
    if h <= r { assert (n - h) % TWO32 == r - h; } else { assert n - h == TWO32 * (q - 1) + (TWO32 + r - h);
      assert (n - h) % TWO32 == TWO32 + r - h; }
  }

  lemma SlotOfWrapped(n: nat)
    ensures (n % TWO32) % BUF == n % BUF
  {
    var q, r := n / TWO32, n % TWO32;
    assert n == BUF * (32768 * q) + r;
  }

  lemma AddMod(a: nat, b: nat)
    ensures (a % TWO32 + b) % TWO32 == (a + b) % TWO32
  {}

  class ByteRing {
    const buf: array<byte>
    var first: u32
    var next: u32
    var lost: u32
    ghost var all: seq<byte>

    /** The ring holds the last bytes of everything appended; the indices wrap at 2^32. */
    ghost predicate Valid()
      reads this, buf
    {
      && Stored(buf[..], all)
      && next == |all| % TWO32 && first == (|all| - Held(|all|)) % TWO32 && lost == first
    }

    constructor ()
      ensures Valid() && all == [] && fresh(buf)
    {
      buf, first, next, lost, all := new byte[BUF](_ => 0), 0, 0, 0, [];
    }

    /** klog_append */
    method Append(s: seq<byte>)
      requires Valid()
      modifies this, buf
      ensures Valid() && all == old(all) + s
    {
      hide Stored, Held;
      var i := 0;
      assert s[..0] == [];
      while i < |s|
        invariant 0 <= i <= |s| && Valid() && all == old(all) + s[..i]
      {
        Push(s[i]);
        assert old(all) + s[..i] + [s[i]] == old(all) + s[..i + 1];
        i := i + 1;
      }
      assert s[..|s|] == s;
    }

    /** One byte, dropping the oldest when the ring is full. */
    method Push(c: byte)
      requires Valid()
      modifies this, buf
      ensures Valid() && all == old(all) + [c]
    {
      hide Stored;
      ghost var n := |all|;
      Indices(n);
      StoredPush(buf[..], all, c);
      StoredSize(buf[..], all);
      if (next - first) % TWO32 >= BUF {
        FirstMoves(n);
        first := (first + 1) % TWO32;
        lost := (lost + 1) % TWO32;
      } else {
        FirstStays(n);
      }
      ghost var was := buf[..];
      buf[next % BUF] := c;
      assert buf[..] == was[n % BUF := c];
      next := (next + 1) % TWO32;
      all := all + [c];
    }

    /** klog_available */
    method Available() returns (n: nat)
      requires Valid()
      ensures n == |Retained(all)|
    {
      Indices(|all|);
      n := (next - first) % TWO32;
    }

    /** The copy loop of klog_read: `size` retained bytes from offset `off`. */
    method Copy(off: nat, size: nat) returns (r: seq<byte>)
      requires Valid() && off + size <= |Retained(all)|
      ensures r == Retained(all)[off..off + size]
    {
      hide Stored, Held, Retained;
      StoredSize(buf[..], all);
      RetainedIs(all);
      ghost var from := |all| - Held(|all|) + off;
      AddMod(|all| - Held(|all|), off);
      r := [];
      var copied, idx := 0, (first + off) % TWO32;
      assert all[from..from] == [];
      while copied < size
        invariant 0 <= copied <= size && idx == (from + copied) % TWO32 && r == all[from..from + copied]
        decreases size - copied
      {
        ghost var g := from + copied;
        SlotOfWrapped(g);
        var phys := idx % BUF;
        var chunk := BUF - phys;
        if chunk > size - copied { chunk := size - copied; }
        Extends(buf[..], all, from, g, chunk);
        r := r + buf[phys..phys + chunk];
        AddMod(g, chunk);
        copied := copied + chunk;
        idx := (idx + chunk) % TWO32;
      }
      SliceOfTail(all, |all| - Held(|all|), off, size);
    }
  }

  lemma Extends(buf: seq<byte>, all: seq<byte>, from: nat, g: nat, n: nat)
    requires Stored(buf, all) && |all| - Held(|all|) <= from <= g && g + n <= |all| && g % BUF + n <= BUF == |buf|
    ensures all[from..g] + buf[g % BUF..g % BUF + n] == all[from..g + n]
  { hide Stored; StoredPiece(buf, all, g, n); }

  lemma SliceOfTail(all: seq<byte>, base: nat, off: nat, n: nat)
    requires base + off + n <= |all|
    ensures all[base..][off..off + n] == all[base + off..base + off + n]
  {}

  lemma StoredSize(buf: seq<byte>, all: seq<byte>)
    requires Stored(buf, all)
    ensures |buf| == BUF
  {}

  lemma FirstMoves(n: nat)
    requires Held(n) >= BUF
    ensures ((n - Held(n)) % TWO32 + 1) % TWO32 == (n + 1 - Held(n + 1)) % TWO32
  {}

  lemma FirstStays(n: nat)
    requires Held(n) < BUF
    ensures (n - Held(n)) % TWO32 == (n + 1 - Held(n + 1)) % TWO32
  {}

  lemma RetainedIs(all: seq<byte>)
    ensures |Retained(all)| == Held(|all|) && Retained(all) == all[|all| - Held(|all|)..]
  {}

  // ---------------------------------------------------------------- the log

  lemma RenderSnoc(records: seq<Rec>, r: Rec)
    ensures Render(records + [r]) == Render(records) + Record(r.level, r.number, r.usec, r.flags, r.text)
  {
    hide Record;
    assert (records + [r])[..|records|] == records;
  }

  class KernelLog {
    const ring: ByteRing
    var recs: u32
    var nextSeq: u32
    const pend: array<byte>
    var pendLen: nat
    var pendTrunc: u32
    var pendLevel: nat
    var esc: nat
    /** How often the clock has been read: once for every record. */
    var emitted: nat
    ghost var records: seq<Rec>

    ghost predicate Valid()
      reads this, ring, ring.buf
    {
      && ring.Valid() && pend.Length == LINE_MAX && pendLen <= LINE_MAX && pend != ring.buf
      && ring.all == Render(records) && emitted == |records|
    }

    ghost function Value(): Log
      reads this, ring, pend
      requires pendLen <= pend.Length
    { Log(records, recs, nextSeq, pend[..pendLen], pendTrunc, pendLevel, esc) }

    constructor ()
      ensures Valid() && Value() == EmptyLog() && fresh(ring) && fresh(ring.buf) && fresh(pend)
    {
      ring := new ByteRing();
      pend := new byte[LINE_MAX](_ => 0);
      recs, nextSeq, pendLen, pendTrunc, pendLevel, esc, emitted, records := 0, 1, 0, 0, LEVEL_DEFAULT, 0, 0, [];
    }

    /** klog_flush_line, through klog_emit. */
    method FlushLine(clock: nat -> nat)
      requires Valid()
      modifies this, ring, ring.buf
      ensures Valid() && Value() == Flush(old(Value()), clock)
    {
      hide Record, Stored, Render;
      if pendLen == 0 {
        pendTrunc := 0;
        return;
      }
      var text := pend[..pendLen];
      var usec := clock(emitted);
      ring.Append(Record(pendLevel, nextSeq, usec, F_NEWLINE, text));
      RenderSnoc(records, Rec(pendLevel, nextSeq, usec, F_NEWLINE, text));
      records := records + [Rec(pendLevel, nextSeq, usec, F_NEWLINE, text)];
      emitted := emitted + 1;
      nextSeq := (nextSeq + 1) % TWO32;
      recs := (recs + 1) % TWO32;
      pendLen, pendTrunc := 0, 0;
    }

    /** klog_feed */
    method FeedText(level: int, text: seq<byte>, clock: nat -> nat)
      requires Valid()
      modifies this, ring, ring.buf, pend
      ensures Valid() && Value() == Feed(old(Value()), level, text, clock)
    {
      hide FeedChar, FeedAt, Stored, Held, Render;
      var lv := if level < 0 || level > 7 then LEVEL_DEFAULT else level;
      ghost var s0 := Value();
      var i := 0;
      FeedNothing(s0, lv, clock);
      assert text[..0] == [];
      while i < |text|
        invariant 0 <= i <= |text| && Valid() && Value() == FeedAt(s0, lv, text[..i], clock)
      {
        FeedNext(s0, lv, text, i, clock);
        FeedOne(lv, text[i], clock);
        i := i + 1;
      }
      assert text[..|text|] == text;
    }

    method FeedOne(level: nat, c: byte, clock: nat -> nat)
      requires Valid()
      modifies this, ring, ring.buf, pend
      ensures Valid() && Value() == FeedChar(old(Value()), level, c, clock)
    {
      hide Flush, Stored, Held, Render;
      ghost var line := pend[..pendLen];
      if esc == 1 {
        if c == 91 || c == 93 { esc := 2; }
        else if 0x40 <= c <= 0x7E { esc := 0; }
        else if c == 0x1B { }
        else { esc := 0; }
        return;
      }
      if esc == 2 {
        if c == 7 { esc := 0; }
        else if c == 0x1B { esc := 3; }
        else if 0x40 <= c <= 0x7E { esc := 0; }
        return;
      }
      if esc == 3 {
        esc := if c == 92 then 0 else 2;
        return;
      }
      if c == 0x1B { esc := 1; return; }
      if c == 13 { return; }
      if c == NEWLINE { FlushLine(clock); return; }
      if c >= 0x80 || (c < 0x20 && c != 9) { return; }
      if pendLen == 0 { pendLevel := level; }
      if pendLen < LINE_MAX {
        pend[pendLen] := c;
        pendLen := pendLen + 1;
        assert pend[..pendLen] == line + [c];
      } else {
        pendTrunc := (pendTrunc + 1) % TWO32;
      }
    }

    /** klog_read: the pending line is flushed, then the slice of the retained bytes is returned. */
    method ReadAt(off: u32, size: u32, clock: nat -> nat) returns (r: seq<byte>)
      requires Valid()
      modifies this, ring, ring.buf
      ensures Valid() && Value() == (if size == 0 then old(Value()) else Flush(old(Value()), clock))
      ensures var kept := Retained(Render(records));
        r == if size == 0 || off >= |kept| then [] else if off + size <= |kept| then kept[off..off + size]
          else kept[off..]
    {
      hide Flush, Stored, Held, Retained, Render;
      r := [];
      if size == 0 { return; }
      FlushLine(clock);
      var avail := ring.Available();
      if off >= avail { return; }
      var n: nat := if size > avail - off then avail - off else size;
      r := ring.Copy(off, n);
    }
  }
}
