/** The terminal: a canonical-mode line editor in front of a ring of bytes for the reader. `Input`
    is the driver's treatment of one keystroke and `Vt` its state for one terminal; `Left` is an
    editor that works on the whole history of keystrokes, from the last one back. */
module Tty {
  import opened Common

  const RING: nat := 1024
  const CAPACITY: nat := 1023
  const LINE_MAX: nat := 1022
  const OUTBUF: nat := 4096
  const NEWLINE: byte := 10
  const RETURN: byte := 13
  const BACKSPACE: byte := 8
  const SPACE: byte := 32
  const TAB: byte := 9

  /** The part of termios that the input side looks at. */
  datatype Termios = Termios(isig: bool, icanon: bool, intr: byte, quit: byte, susp: byte, eof: byte, erase: byte,
    kill: byte, werase: byte)

  // ---------------------------------------------------------------- one keystroke

  predicate Blank(c: byte) { c == SPACE || c == TAB }

  function DropBlanks(s: seq<byte>): seq<byte> {
    if s == [] || !Blank(s[|s| - 1]) then s else DropBlanks(s[..|s| - 1])
  }

  function DropWord(s: seq<byte>): seq<byte> {
    if s == [] || Blank(s[|s| - 1]) then s else DropWord(s[..|s| - 1])
  }

  /** Word erase: trailing blanks, then the word before them. */
  function WordErase(s: seq<byte>): seq<byte> { DropWord(DropBlanks(s)) }

  predicate IsSignal(t: Termios, c: byte) { t.isig && (c == t.intr || c == t.quit || c == t.susp) }

  /** What a keystroke hands to the reader. */
  function Emits(t: Termios, foreground: bool, line: seq<byte>, c: byte): seq<byte> {
    if c == 0 then []
    else if IsSignal(t, c) then (if foreground then [] else [c])
    else if !t.icanon then [c]
    else if c == t.eof then line
    else if c == NEWLINE || c == RETURN then line + [NEWLINE]
    else []
  }

  /** What it leaves in the line. */
  function Edits(t: Termios, foreground: bool, line: seq<byte>, c: byte): seq<byte> {
    if c == 0 then line
    else if IsSignal(t, c) then (if foreground then [] else line)
    else if !t.icanon then line
    else if c == t.eof || c == NEWLINE || c == RETURN then []
    else EditsLine(t, line, c)
  }

  function EditsLine(t: Termios, line: seq<byte>, c: byte): seq<byte> {
    if c == t.erase || c == BACKSPACE then (if line == [] then [] else line[..|line| - 1])
    else if c == t.kill then []
    else if c == t.werase then WordErase(line)
    else if |line| < LINE_MAX then line + [c]
    else line
  }

  /** End of file at the start of a line. */
  predicate SetsEof(t: Termios, foreground: bool, line: seq<byte>, c: byte) {
    c != 0 && !IsSignal(t, c) && t.icanon && c == t.eof && line == []
  }

  predicate Ordinary(t: Termios, c: byte) {
    && c != 0 && !IsSignal(t, c) && t.icanon && c != t.eof && c != NEWLINE && c != RETURN
    && c != t.erase && c != BACKSPACE && c != t.kill && c != t.werase
  }

  /** Erase undoes a typed character exactly when the line had room for it. */
  lemma EraseUndoes(v: Value, t: Termios, fg: bool, c: byte)
    requires Ordinary(t, c) && !IsSignal(t, t.erase) && t.icanon
    requires t.erase != 0 && t.erase != t.eof && t.erase != NEWLINE && t.erase != RETURN
    ensures Input(Input(v, t, fg, c), t, fg, t.erase) == v <==> |v.line| < LINE_MAX
  {
    if |v.line| < LINE_MAX { assert (v.line + [c])[..|v.line|] == v.line; }
  }

  /** What word erase leaves: the line is that, a word without blanks, and blanks; the word
      starts after a blank or at the start, and is empty only if nothing is left. */
  lemma WordEraseIs(s: seq<byte>)
    ensures var r, m := WordErase(s), DropBlanks(s);
      && r <= m <= s
      && (forall k | |m| <= k < |s| :: Blank(s[k]))
      && (forall k | |r| <= k < |m| :: !Blank(s[k]))
      && (r == [] || Blank(r[|r| - 1])) && (r == m ==> r == [])
  {
    DropBlanksIs(s);
    DropWordIs(DropBlanks(s));
  }

  lemma {:induction false} DropBlanksIs(s: seq<byte>)
    ensures var m := DropBlanks(s);
      m <= s && (forall k | |m| <= k < |s| :: Blank(s[k]))
      && (m == [] || !Blank(m[|m| - 1]))
  { if s != [] && Blank(s[|s| - 1]) { DropBlanksIs(s[..|s| - 1]); } }

  lemma {:induction false} DropWordIs(s: seq<byte>)
    ensures var r := DropWord(s);
      r <= s && (forall k | |r| <= k < |s| :: !Blank(s[k]))
      && (r == [] || Blank(r[|r| - 1]))
  { if s != [] && !Blank(s[|s| - 1]) { DropWordIs(s[..|s| - 1]); } }

  lemma EditsFit(t: Termios, fg: bool, line: seq<byte>, c: byte)
    requires |line| <= LINE_MAX
    ensures |Edits(t, fg, line, c)| <= LINE_MAX
  { WordEraseIs(line); }

  // ---------------------------------------------------------------- the queue with a capacity

  function Min(a: nat, b: nat): nat { if a < b then a else b }

  /** Pushing bytes one by one, dropping those that meet a full ring. */
  function PushAll(q: seq<byte>, bs: seq<byte>): seq<byte> {
    if bs == [] then q
    else
      var r := PushAll(q, bs[..|bs| - 1]);
      if |r| < CAPACITY then r + [bs[|bs| - 1]] else r
  }

  /** Exactly the bytes for which there is room are queued. */
  lemma {:induction false} PushAllIs(q: seq<byte>, bs: seq<byte>)
    requires |q| <= CAPACITY
    ensures PushAll(q, bs) == q + bs[..Min(|bs|, CAPACITY - |q|)]
    ensures PushAll(q, bs) == q + bs <==> |q| + |bs| <= CAPACITY
  {
    if bs != [] {
      var n := |bs| - 1;
      PushAllIs(q, bs[..n]);
      if |q| + n < CAPACITY {
        assert bs[..n][..n] + [bs[n]] == bs;
        assert bs[..|bs|] == bs;
      } else {
        assert bs[..n][..CAPACITY - |q|] == bs[..CAPACITY - |q|];
      }
    }
  }

  /** The terminal seen from outside. */
  datatype Value = Value(line: seq<byte>, queue: seq<byte>, eof: bool)

  function Input(v: Value, t: Termios, fg: bool, c: byte): Value {
    Value(Edits(t, fg, v.line, c), PushAll(v.queue, Emits(t, fg, v.line, c)), v.eof || SetsEof(t, fg, v.line, c))
  }

  /** A commit into an empty ring always fits. */
  lemma CommitFits(v: Value, t: Termios, fg: bool, c: byte)
    requires |v.line| <= LINE_MAX && v.queue == []
    ensures Input(v, t, fg, c).queue == Emits(t, fg, v.line, c)
  { PushAllIs([], Emits(t, fg, v.line, c)); }

  // ---------------------------------------------------------------- whole sessions

  /** A keystroke (with the mode it meets), or a reader taking bytes, or taking the end of file. */
  datatype Event = Typed(t: Termios, fg: bool, c: byte) | Taken(n: nat) | EofTaken

  /** `got` is what readers have taken so far. */
  datatype Session = Session(v: Value, got: seq<byte>)

  function Do(s: Session, ev: Event): Session {
    match ev
    case Typed(t, fg, c) => s.(v := Input(s.v, t, fg, c))
    case Taken(n) => var k := Min(n, |s.v.queue|); Session(s.v.(queue := s.v.queue[k..]), s.got + s.v.queue[..k])
    case EofTaken => s.(v := s.v.(eof := false))
  }

  function NewSession(): Session { Session(Value([], [], false), []) }

  function RunSession(evs: seq<Event>): Session {
    if evs == [] then NewSession() else Do(RunSession(evs[..|evs| - 1]), evs[|evs| - 1])
  }

  /** The ring had room for everything each keystroke committed. */
  ghost predicate Roomy(evs: seq<Event>) {
    evs == [] ||
    var before, ev := RunSession(evs[..|evs| - 1]), evs[|evs| - 1];
    && Roomy(evs[..|evs| - 1])
    && (ev.Typed? ==> |before.v.queue| + |Emits(ev.t, ev.fg, before.v.line, ev.c)| <= CAPACITY)
  }

  // ---------------------------------------------------------------- the line, from the last key back

  /** What a keystroke means in its mode. */
  datatype Stroke = Char(c: byte) | Rub | RubWord | Kill | Enter | EndFile | Through(c: byte) | Nothing

  function Means(t: Termios, fg: bool, c: byte): Stroke {
    if c == 0 then Nothing
    else if IsSignal(t, c) then (if fg then Kill else Through(c))
    else if !t.icanon then Through(c)
    else if c == t.eof then EndFile
    else if c == NEWLINE || c == RETURN then Enter
    else if c == t.erase || c == BACKSPACE then Rub
    else if c == t.kill then Kill
    else if c == t.werase then RubWord
    else Char(c)
  }

  /** An eraser that has not met its character yet: one character, or blanks and then a word, or
      the rest of a word. */
  datatype Eraser = One | Blanks | Letters

  /** The characters that are left of a history of keystrokes when the erasers still to come, next
      one first, have had their way. The history is read from its end: a character is kept if no
      eraser is waiting for it, and nothing before a kill or a finished line is looked at. */
  function Left(keys: seq<Stroke>, erasers: seq<Eraser>): seq<byte>
    decreases |keys|, |erasers|
  {
    if keys == [] then []
    else
      var before := keys[..|keys| - 1];
      match keys[|keys| - 1]
      case Rub => Left(before, [One] + erasers)
      case RubWord => Left(before, [Blanks] + erasers)
      case Kill => []
      case Enter => []
      case EndFile => []
      case Through(_) => Left(before, erasers)
      case Nothing => Left(before, erasers)
      case Char(c) =>
        if |Left(before, [])| >= LINE_MAX then Left(before, erasers)
        else if erasers == [] then Left(before, []) + [c]
        else match erasers[0]
          case One => Left(before, erasers[1..])
          case Blanks => Left(before, if Blank(c) then erasers else [Letters] + erasers[1..])
          case Letters => if Blank(c) then Left(keys, erasers[1..]) else Left(before, erasers)
  }

  function Erase(line: seq<byte>, e: Eraser): seq<byte> {
    match e
    case One => if line == [] then [] else line[..|line| - 1]
    case Blanks => WordErase(line)
    case Letters => DropWord(line)
  }

  function EraseAll(line: seq<byte>, erasers: seq<Eraser>): seq<byte>
    decreases |erasers|
  { if erasers == [] then line else EraseAll(Erase(line, erasers[0]), erasers[1..]) }

  lemma {:induction false} EraseNothing(erasers: seq<Eraser>)
    ensures EraseAll([], erasers) == []
    decreases |erasers|
  { if erasers != [] { EraseNothing(erasers[1..]); } }

  lemma EraseNext(line: seq<byte>, e: Eraser, erasers: seq<Eraser>)
    ensures EraseAll(line, [e] + erasers) == EraseAll(Erase(line, e), erasers)
  { assert ([e] + erasers)[1..] == erasers; }

  /** What the first eraser does to a line that ends in c. */
  lemma EraseLast(line: seq<byte>, c: byte)
    ensures Erase(line + [c], One) == line
    ensures Erase(line + [c], Blanks) == if Blank(c) then Erase(line, Blanks) else Erase(line, Letters)
    ensures Erase(line + [c], Letters) == if Blank(c) then line + [c] else Erase(line, Letters)
  { assert (line + [c])[..|line|] == line; }

  /** The line as the driver keeps it, key by key. */
  function LineOf(keys: seq<Stroke>): seq<byte> {
    if keys == [] then []
    else
      var line := LineOf(keys[..|keys| - 1]);
      match keys[|keys| - 1]
      case Char(c) => if |line| < LINE_MAX then line + [c] else line
      case Rub => Erase(line, One)
      case RubWord => WordErase(line)
      case Kill => []
      case Enter => []
      case EndFile => []
      case Through(_) => line
      case Nothing => line
  }

  lemma EditsMean(t: Termios, fg: bool, line: seq<byte>, c: byte, keys: seq<Stroke>)
    requires line == LineOf(keys)
    ensures Edits(t, fg, line, c) == LineOf(keys + [Means(t, fg, c)])
  {
    hide WordErase;
    assert (keys + [Means(t, fg, c)])[..|keys|] == keys;
  }

  /** Reading the history backwards gives the driver's line, with any erasers still to come. */
  lemma {:induction false} LeftIs(keys: seq<Stroke>, erasers: seq<Eraser>)
    ensures Left(keys, erasers) == EraseAll(LineOf(keys), erasers)
    decreases |keys|, |erasers|
  {
    hide Erase, WordErase, EraseAll;
    if keys == [] {
      EraseNothing(erasers);
    } else {
      var before, line := keys[..|keys| - 1], LineOf(keys[..|keys| - 1]);
      match keys[|keys| - 1] {
        case Rub => LeftIs(before, [One] + erasers); EraseNext(line, One, erasers);
        case RubWord => LeftIs(before, [Blanks] + erasers); EraseNext(line, Blanks, erasers); BlanksIs(line);
        case Char(c) =>
          LeftIs(before, []);
          NoErasers(line);
          LeftIs(before, erasers);
          if |line| < LINE_MAX { LeftChar(keys, c, erasers); }
        case Through(_) => LeftIs(before, erasers);
        case Nothing => LeftIs(before, erasers);
        case _ => EraseNothing(erasers);
      }
    }
  }

  lemma BlanksIs(line: seq<byte>)
    ensures Erase(line, Blanks) == WordErase(line)
  {}

  lemma NoErasers(line: seq<byte>)
    ensures EraseAll(line, []) == line
  {}

  lemma FirstEraser(line: seq<byte>, erasers: seq<Eraser>)
    requires erasers != []
    ensures EraseAll(line, erasers) == EraseAll(Erase(line, erasers[0]), erasers[1..])
  {}

  lemma {:induction false} LeftChar(keys: seq<Stroke>, c: byte, erasers: seq<Eraser>)
    requires keys != [] && keys[|keys| - 1] == Char(c)
    requires |LineOf(keys[..|keys| - 1])| < LINE_MAX && Left(keys[..|keys| - 1], []) == LineOf(keys[..|keys| - 1])
    ensures Left(keys, erasers) == EraseAll(LineOf(keys), erasers)
    decreases |keys|, |erasers|, 0
  {
    hide Erase, WordErase, EraseAll;
    var before, line := keys[..|keys| - 1], LineOf(keys[..|keys| - 1]);
    if erasers == [] {
      NoErasers(line + [c]);
    } else {
      var rest := erasers[1..];
      EraseLast(line, c);
      FirstEraser(line + [c], erasers);
      FirstEraser(line, erasers);
      match erasers[0] {
        case One => LeftIs(before, rest);
        case Blanks =>
          LeftIs(before, if Blank(c) then erasers else [Letters] + rest);
          EraseNext(line, Letters, rest);
        case Letters => if Blank(c) { LeftIs(keys, rest); } else { LeftIs(before, erasers); }
      }
    }
  }

  // ---------------------------------------------------------------- what readers are given

  function Keys(evs: seq<Event>): seq<Stroke> {
    if evs == [] then []
    else
      var ev := evs[|evs| - 1];
      Keys(evs[..|evs| - 1]) + if ev.Typed? then [Means(ev.t, ev.fg, ev.c)] else []
  }

  /** What a key hands over of the line in front of it. */
  function Hands(k: Stroke, line: seq<byte>): seq<byte> {
    match k
    case Enter => line + [NEWLINE]
    case EndFile => line
    case Through(c) => [c]
    case _ => []
  }

  /** Everything handed over in a session: at each finished line what was left of it. */
  function Handed(evs: seq<Event>): seq<byte> {
    if evs == [] then []
    else
      var before, ev := evs[..|evs| - 1], evs[|evs| - 1];
      Handed(before) + if ev.Typed? then Hands(Means(ev.t, ev.fg, ev.c), Left(Keys(before), [])) else []
  }

  /** The end of file was typed on an empty line, and not yet read since. */
  predicate EofDue(evs: seq<Event>) {
    evs != [] &&
    var before, ev := evs[..|evs| - 1], evs[|evs| - 1];
    || (ev.Typed? && Means(ev.t, ev.fg, ev.c) == EndFile && Left(Keys(before), []) == [])
    || (!ev.EofTaken? && EofDue(before))
  }

  lemma EmitsMean(t: Termios, fg: bool, line: seq<byte>, c: byte)
    ensures Emits(t, fg, line, c) == Hands(Means(t, fg, c), line)
    ensures SetsEof(t, fg, line, c) <==> Means(t, fg, c) == EndFile && line == []
  {}

  /** The line and the pending end of file, after any events, whatever the ring has room for. */
  lemma {:induction false} LineFaithful(evs: seq<Event>)
    ensures var s := RunSession(evs);
      && s.v.line == LineOf(Keys(evs)) == Left(Keys(evs), []) && s.v.eof == EofDue(evs)
      && |s.v.line| <= LINE_MAX && |s.v.queue| <= CAPACITY
  {
    hide Edits, Emits, Means, LineOf, Left;
    LeftIs(Keys(evs), []);
    NoErasers(LineOf(Keys(evs)));
    if evs == [] {
      NoLine();
    } else {
      var before, ev := evs[..|evs| - 1], evs[|evs| - 1];
      LineFaithful(before);
      var s := RunSession(before);
      match ev {
        case Typed(t, fg, c) =>
          EditsMean(t, fg, s.v.line, c, Keys(before));
          EmitsMean(t, fg, s.v.line, c);
          EditsFit(t, fg, s.v.line, c);
          PushAllIs(s.v.queue, Emits(t, fg, s.v.line, c));
        case Taken(n) => assert Keys(evs) == Keys(before);
        case EofTaken => assert Keys(evs) == Keys(before);
      }
    }
  }

  lemma NoLine()
    ensures LineOf([]) == []
  {}

  /** For every session: what readers took and what is queued is everything the history hands
      over, if and only if the ring had room whenever a key committed something. */
  lemma {:induction false} EditorFaithful(evs: seq<Event>)
    ensures var s := RunSession(evs); s.got + s.v.queue == Handed(evs) <==> Roomy(evs)
    ensures |RunSession(evs).got + RunSession(evs).v.queue| <= |Handed(evs)|
  {
    hide Edits, Emits, Means, LineOf, Left, Hands;
    if evs != [] {
      var before, ev := evs[..|evs| - 1], evs[|evs| - 1];
      EditorFaithful(before);
      LineFaithful(before);
      var s := RunSession(before);
      match ev {
        case Typed(t, fg, c) =>
          EmitsMean(t, fg, s.v.line, c);
          Pushed(s.got, s.v.queue, Handed(before), Emits(t, fg, s.v.line, c));
        case Taken(n) =>
          var k := Min(n, |s.v.queue|);
          assert s.got + s.v.queue[..k] + s.v.queue[k..] == s.got + s.v.queue;
        case EofTaken =>
      }
    }
  }

  /** Bytes pushed into the ring against bytes appended to a list that is never shorter. */
  lemma Pushed(got: seq<byte>, q: seq<byte>, handed: seq<byte>, bs: seq<byte>)
    requires |q| <= CAPACITY && |got + q| <= |handed|
    ensures got + PushAll(q, bs) == handed + bs <==> got + q == handed && |q| + |bs| <= CAPACITY
    ensures |got + PushAll(q, bs)| <= |handed + bs|
  {
    PushAllIs(q, bs);
    if |q| + |bs| <= CAPACITY {
      assert got + (q + bs) == (got + q) + bs;
      if (got + q) + bs == handed + bs {
        assert ((got + q) + bs)[..|got + q|] == got + q && (handed + bs)[..|handed|] == handed;
      }
    }
  }

  // ---------------------------------------------------------------- reading

  /** How many queued bytes one read takes: up to a newline, the size, or all there is. */
  function Takes(q: seq<byte>, size: nat): nat {
    if q == [] || size == 0 then 0 else if q[0] == NEWLINE then 1 else 1 + Takes(q[1..], size - 1)
  }

  /** A canonical read with a large enough buffer returns exactly the first line queued. */
  lemma {:induction false} ReadTakesLine(line: seq<byte>, rest: seq<byte>, size: nat)
    requires NEWLINE !in line && size > |line|
    ensures Takes(line + [NEWLINE] + rest, size) == |line| + 1
  {
    var q := line + [NEWLINE] + rest;
    if line != [] {
      assert q[0] == line[0] && q[1..] == line[1..] + [NEWLINE] + rest;
      ReadTakesLine(line[1..], rest, size - 1);
    }
  }

  // ---------------------------------------------------------------- one terminal's state

  /** The bytes from rd up to wr, around the ring. */
  function Ring(buf: seq<byte>, rd: nat, wr: nat): (r: seq<byte>)
    requires |buf| == RING && rd < RING && wr < RING
    ensures |r| == (wr - rd) % RING
  { seq((wr - rd) % RING, k requires 0 <= k < (wr - rd) % RING => buf[(rd + k) % RING]) }

  lemma RingPush(buf: seq<byte>, rd: nat, wr: nat, c: byte)
    requires |buf| == RING && rd < RING && wr < RING && (wr + 1) % RING != rd
    ensures Ring(buf[wr := c], rd, (wr + 1) % RING) == Ring(buf, rd, wr) + [c]
  {
    var n, r := (wr - rd) % RING, Ring(buf[wr := c], rd, (wr + 1) % RING);
    RingSlots(rd, wr);
    forall k | 0 <= k < n + 1 ensures r[k] == (Ring(buf, rd, wr) + [c])[k] {
      if k < n { SlotsDiffer(rd, k, n); }
    }
  }

  lemma RingSlots(rd: nat, wr: nat)
    requires rd < RING && wr < RING && (wr + 1) % RING != rd
    ensures var n := (wr - rd) % RING; n < CAPACITY && (rd + n) % RING == wr && ((wr + 1) % RING - rd) % RING == n + 1
  {}

  lemma SlotsDiffer(rd: nat, k: nat, n: nat)
    requires rd < RING && k < n < RING
    ensures (rd + k) % RING != (rd + n) % RING
  {}

  lemma RingFull(buf: seq<byte>, rd: nat, wr: nat)
    requires |buf| == RING && rd < RING && wr < RING
    ensures |Ring(buf, rd, wr)| < CAPACITY <==> (wr + 1) % RING != rd
    ensures Ring(buf, rd, wr) == [] <==> rd == wr
  {}

  lemma RingPop(buf: seq<byte>, rd: nat, wr: nat)
    requires |buf| == RING && rd < RING && wr < RING && rd != wr
    ensures Ring(buf, rd, wr) == [buf[rd]] + Ring(buf, (rd + 1) % RING, wr)
  {
    var a, b := Ring(buf, rd, wr), Ring(buf, (rd + 1) % RING, wr);
    PopLength(rd, wr);
    var c := [buf[rd]] + b;
    forall k | 0 <= k < |a| ensures a[k] == c[k] { if k > 0 { NextSlot(rd, k - 1); } }
  }

  lemma PopLength(rd: nat, wr: nat)
    requires rd < RING && wr < RING && rd != wr
    ensures (wr - rd) % RING == (wr - (rd + 1) % RING) % RING + 1
  {
    if rd < wr { assert (wr - rd) % RING == wr - rd && (rd + 1) % RING == rd + 1; }
    else if rd == RING - 1 { assert (rd + 1) % RING == 0 && (wr - rd) % RING == wr + 1; }
    else { assert (wr - rd) % RING == wr - rd + RING && (rd + 1) % RING == rd + 1
      && (wr - (rd + 1)) % RING == wr - rd - 1 + RING; }
  }

  lemma NextSlot(rd: nat, k: nat)
    requires rd < RING
    ensures (rd + (k + 1)) % RING == ((rd + 1) % RING + k) % RING
  {}

  class Vt {
    const inBuf: array<byte>
    var inWr: nat
    var inRd: nat
    const lineBuf: array<byte>
    var lineLen: nat
    var eofPending: bool

    ghost predicate Valid()
      reads this, inBuf, lineBuf
    {
      && inBuf.Length == RING && inWr < RING && inRd < RING
      && lineBuf.Length == LINE_MAX && lineLen <= LINE_MAX && lineBuf != inBuf
    }

    ghost function Queue(): (q: seq<byte>)
      reads this, inBuf, lineBuf
      requires Valid()
      ensures |q| <= CAPACITY
    { Ring(inBuf[..], inRd, inWr) }

    ghost function State(): Value
      reads this, inBuf, lineBuf
      requires Valid()
    { Value(lineBuf[..lineLen], Queue(), eofPending) }

    constructor ()
      ensures Valid() && State() == Value([], [], false) && fresh(inBuf) && fresh(lineBuf)
    {
      inBuf, lineBuf := new byte[RING](_ => 0), new byte[LINE_MAX](_ => 0);
      inWr, inRd, lineLen, eofPending := 0, 0, 0, false;
    }

    /** in_push: a byte that meets a full ring is dropped. */
    method Push(c: byte)
      requires Valid()
      modifies this`inWr, inBuf
      ensures Valid()
      ensures State() == old(State()).(queue := if |old(Queue())| < CAPACITY then old(Queue()) + [c] else old(Queue()))
    {
      hide Ring;
      RingFull(inBuf[..], inRd, inWr);
      var next := (inWr + 1) % RING;
      if next == inRd { return; }
      RingPush(inBuf[..], inRd, inWr, c);
      ghost var was := inBuf[..];
      inBuf[inWr] := c;
      assert inBuf[..] == was[inWr := c];
      inWr := next;
    }

    /** line_commit */
    method Commit(newline: bool)
      requires Valid()
      modifies this`inWr, this`lineLen, inBuf
      ensures Valid()
      ensures State() ==
        old(State()).(line := [], queue := PushAll(old(Queue()), old(lineBuf[..lineLen]) + (if newline then [NEWLINE]
        else [])))
    {
      hide Ring;
      ghost var line, q := lineBuf[..lineLen], Queue();
      var k := 0;
      assert line[..0] == [];
      while k < lineLen
        invariant 0 <= k <= lineLen && Valid() && lineLen == old(lineLen) && lineBuf[..lineLen] == line
          && eofPending == old(eofPending)
        invariant Queue() == PushAll(q, line[..k])
      {
        assert line[..k + 1][..k] == line[..k] && line[..k + 1][k] == lineBuf[k];
        Push(lineBuf[k]);
        k := k + 1;
      }
      assert line[..k] == line && line + [] == line;
      if newline {
        assert (line + [NEWLINE])[..|line|] == line;
        Push(NEWLINE);
      }
      lineLen := 0;
    }

    /** line_werase */
    method WordEraseLine()
      requires Valid()
      modifies this`lineLen
      ensures Valid() && State() == old(State()).(line := WordErase(old(lineBuf[..lineLen])))
    {
      ghost var line := lineBuf[..lineLen];
      var n := lineLen;
      assert line[..n] == line;
      while n > 0 && (lineBuf[n - 1] == SPACE || lineBuf[n - 1] == TAB)
        invariant 0 <= n <= lineLen && DropBlanks(line[..n]) == DropBlanks(line)
        modifies {}
      {
        assert line[..n][..n - 1] == line[..n - 1];
        n := n - 1;
      }
      assert line[..n] == DropBlanks(line);
      while n > 0 && lineBuf[n - 1] != SPACE && lineBuf[n - 1] != TAB
        invariant 0 <= n <= lineLen && DropWord(line[..n]) == WordErase(line)
        modifies {}
      {
        assert line[..n][..n - 1] == line[..n - 1];
        n := n - 1;
      }
      lineLen := n;
      assert lineBuf[..n] == line[..n];
    }

    /** The part of tty_input that edits the line. */
    method EditKey(t: Termios, c: byte)
      requires Valid()
      modifies this`lineLen, lineBuf
      ensures Valid() && State() == old(State()).(line := EditsLine(t, old(lineBuf[..lineLen]), c))
    {
      hide Ring, WordErase;
      ghost var line := lineBuf[..lineLen];
      if c == t.erase || c == BACKSPACE {
        if lineLen > 0 {
          lineLen := lineLen - 1;
          assert lineBuf[..lineLen] == line[..|line| - 1];
        }
        return;
      }
      if c == t.kill { lineLen := 0; return; }
      if c == t.werase { WordEraseLine(); return; }
      if lineLen < LINE_MAX {
        lineBuf[lineLen] := c;
        lineLen := lineLen + 1;
        assert lineBuf[..lineLen] == line + [c];
      }
    }

    /** tty_input, from the termios of this terminal and whether there is a foreground group;
        the echo is not modelled. */
    method TtyInput(t: Termios, fg: bool, c: byte)
      requires Valid()
      modifies this`inWr, this`lineLen, this`eofPending, inBuf, lineBuf
      ensures Valid() && State() == Input(old(State()), t, fg, c)
    {
      hide Ring, EditsLine, PushAll;
      ghost var v := State();
      PushOne(v.queue, c);
      if c == 0 { return; }
      if t.isig && (c == t.intr || c == t.quit || c == t.susp) {
        if fg { lineLen := 0; } else { Push(c); }
        return;
      }
      if !t.icanon { Push(c); return; }
      if c == t.eof {
        if lineLen == 0 { eofPending := true; } else { Commit(false); assert v.line + [] == v.line; }
        return;
      }
      if c == NEWLINE || c == RETURN { Commit(true); return; }
      EditKey(t, c);
    }

    /** tty_read on the active terminal, up to where it would sleep: the bytes taken, and whether an
        end of file is reported. */
    method TtyRead(size: nat, canonical: bool) returns (buf: seq<byte>, eof: bool)
      requires Valid()
      modifies this`inRd, this`eofPending
      ensures Valid() && |buf| == Takes(old(Queue()), size)
      ensures eof <==> old(eofPending) && Drains(old(Queue()), buf, size, canonical)
      ensures var s := Do(Session(old(State()), []), Taken(|buf|));
        Session(State(), buf) == if eof then Do(s, EofTaken) else s
    {
      hide Ring, Takes, Drains, Partway;
      ghost var v := State();
      ghost var q := v.queue;
      buf, eof := [], false;
      ReadStarts(q, size, canonical);
      while |buf| < size
        invariant Valid() && Partway(q, buf, size, canonical) && !eof
        invariant |buf| <= |q| && State() == v.(queue := q[|buf|..])
        decreases |q| - |buf|
      {
        RingFull(inBuf[..], inRd, inWr);
        if inRd == inWr {
          ReadDrains(q, buf, size, canonical);
          TakenIs(v, buf);
          if eofPending {
            eofPending := false;
            eof := true;
          }
          return;
        }
        var c := Pop();
        NextByte(q, |buf|, c, Queue());
        ReadGoesOn(q, buf, c, size, canonical);
        buf := buf + [c];
        TakenIs(v, buf);
        if c == NEWLINE { return; }
        if size <= 1 { return; }
        if !canonical {
          RingFull(inBuf[..], inRd, inWr);
          if inRd == inWr { return; }
        }
      }
      ReadFills(q, buf, size, canonical);
      TakenIs(v, buf);
    }

    method Pop() returns (c: byte)
      requires Valid() && inRd != inWr
      modifies this`inRd
      ensures Valid() && old(Queue()) == [c] + Queue()
    {
      hide Ring;
      RingPop(inBuf[..], inRd, inWr);
      c := inBuf[inRd];
      inRd := (inRd + 1) % RING;
    }
  }

  /** The output scrollback of one terminal. */
  class Scrollback {
    const out: array<byte>
    var outLen: nat

    ghost predicate Valid()
      reads this
    { out.Length == OUTBUF && outLen <= OUTBUF }

    ghost function Text(): seq<byte>
      reads this, out
      requires Valid()
    { out[..outLen] }

    constructor ()
      ensures Valid() && Text() == [] && fresh(out)
    { out, outLen := new byte[OUTBUF](_ => 0), 0; }

    /** vt_append: the most recent bytes are kept. */
    method Append(buf: seq<byte>)
      requires Valid()
      modifies this, out
      ensures Valid() && Text() == Recent(old(Text()) + buf)
    {
      ghost var was := Text();
      var n := |buf|;
      if n >= OUTBUF {
        forall k | 0 <= k < OUTBUF { out[k] := buf[n - OUTBUF + k]; }
        outLen := OUTBUF;
        assert Text() == Recent(was + buf);
        return;
      }
      if outLen + n > OUTBUF { Slide(outLen + n - OUTBUF); }
      ghost var kept := Text();
      var at := outLen;
      forall k | 0 <= k < n { out[at + k] := buf[k]; }
      outLen := at + n;
      assert Text() == kept + buf;
      assert kept + buf == Recent(was + buf);
    }

    /** The forward copy that drops the oldest bytes. */
    method Slide(drop: nat)
      requires Valid() && drop <= outLen
      modifies this, out
      ensures Valid() && outLen == old(outLen) - drop && Text() == old(Text())[drop..]
    {
      ghost var was := Text();
      var keep := outLen - drop;
      var k := 0;
      while k < keep
        modifies out
        invariant 0 <= k <= keep
        invariant forall j | 0 <= j < k :: out[j] == was[drop + j]
        invariant forall j | k <= j < |was| :: out[j] == was[j]
      {
        out[k] := out[drop + k];
        k := k + 1;
      }
      outLen := keep;
    }
  }

  /** The last 4096 bytes, or all of fewer. */
  function Recent(s: seq<byte>): seq<byte> { if |s| <= OUTBUF then s else s[|s| - OUTBUF..] }

  /** Appending piece by piece keeps the last bytes of everything written. */
  lemma RecentOfRecent(a: seq<byte>, b: seq<byte>)
    ensures Recent(Recent(a) + b) == Recent(a + b)
  {}

  lemma PushOne(q: seq<byte>, c: byte)
    ensures PushAll(q, [c]) == (if |q| < CAPACITY then q + [c] else q) && PushAll(q, []) == q
  {
    assert [c][..0] == [];
    assert PushAll(q, []) == q;
  }

  /** A read that drains the queue short of its size, and does not return for another reason. */
  predicate Drains(q: seq<byte>, buf: seq<byte>, size: nat, canonical: bool) {
    |buf| == |q| < size && (buf == [] || (canonical && buf[|buf| - 1] != NEWLINE))
  }

  /** The bytes taken when the loop goes round again. */
  ghost predicate Partway(q: seq<byte>, buf: seq<byte>, size: nat, canonical: bool) {
    && buf <= q && |buf| <= size && |buf| + Takes(q[|buf|..], size - |buf|) == Takes(q, size)
    && (buf == [] || (buf[|buf| - 1] != NEWLINE && (canonical || |buf| < |q|)))
  }

  lemma ReadStarts(q: seq<byte>, size: nat, canonical: bool)
    ensures Partway(q, [], size, canonical) && q[0..] == q
  {}

  lemma ReadDrains(q: seq<byte>, buf: seq<byte>, size: nat, canonical: bool)
    requires Partway(q, buf, size, canonical) && q[|buf|..] == [] && |buf| < size
    ensures buf <= q && |buf| == Takes(q, size) && Drains(q, buf, size, canonical)
  {
    hide Takes;
    TakesNext(q[|buf|..], size - |buf|);
  }

  lemma ReadFills(q: seq<byte>, buf: seq<byte>, size: nat, canonical: bool)
    requires Partway(q, buf, size, canonical) && |buf| >= size
    ensures buf <= q && |buf| == Takes(q, size) && !Drains(q, buf, size, canonical)
  {
    hide Takes;
    TakesNext(q[|buf|..], size - |buf|);
  }

  lemma ReadGoesOn(q: seq<byte>, buf: seq<byte>, c: byte, size: nat, canonical: bool)
    requires Partway(q, buf, size, canonical) && |buf| < size && |buf| < |q| && q[|buf|] == c
    ensures var b := buf + [c];
      && b <= q
      && if c == NEWLINE || size <= 1 || (!canonical && |b| == |q|)
         then |b| == Takes(q, size) && !Drains(q, b, size, canonical)
         else Partway(q, b, size, canonical)
  {
    hide Takes;
    var n, b := |buf|, buf + [c];
    TakesOne(q, n, size);
    assert b == q[..n + 1] && |b| == n + 1 && b[n] == c;
  }

  lemma TakesOne(q: seq<byte>, n: nat, size: nat)
    requires n < |q| && n < size
    ensures Takes(q[n..], size - n) == if q[n] == NEWLINE then 1 else 1 + Takes(q[n + 1..], size - n - 1)
    ensures n + 1 == |q| || n + 1 == size ==> Takes(q[n + 1..], size - n - 1) == 0
  {
    hide Takes;
    TakesNext(q[n..], size - n);
    TakesNext(q[n + 1..], size - n - 1);
    assert q[n..][0] == q[n] && q[n..][1..] == q[n + 1..];
  }

  lemma TakenIs(v: Value, buf: seq<byte>)
    requires buf <= v.queue
    ensures Do(Session(v, []), Taken(|buf|)) == Session(v.(queue := v.queue[|buf|..]), buf)
    ensures Do(Do(Session(v, []), Taken(|buf|)), EofTaken) == Session(v.(queue := v.queue[|buf|..], eof := false), buf)
  {}

  lemma NextByte(q: seq<byte>, n: nat, c: byte, rest: seq<byte>)
    requires n <= |q| && q[n..] == [c] + rest
    ensures n < |q| && q[n] == c && q[n + 1..] == rest
  {
    assert q[n..][0] == c;
    assert q[n + 1..] == q[n..][1..] == rest;
  }

  lemma TakesNext(q: seq<byte>, size: nat)
    ensures Takes(q, size) == if q == [] || size == 0 then 0 else if q[0] == NEWLINE then 1
      else 1 + Takes(q[1..], size - 1)
    ensures Takes(q, size) <= |q|
  { TakesBound(q, size); }

  lemma {:induction false} TakesBound(q: seq<byte>, size: nat)
    ensures Takes(q, size) <= |q| && Takes(q, size) <= size
  { if q != [] && size > 0 { TakesBound(q[1..], size - 1); } }
}
