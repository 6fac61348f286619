/** The console's escape filter: bytes typed by the user pass through, except that a tilde at the start of a line
    introduces an escape, and tilde-dot disconnects. */
module EscapeFilter {
  import opened Common

  newtype byte = x: int | 0 <= x < 256

  const NEWLINE: byte := 10
  const RETURN: byte := 13
  const TILDE: byte := 126
  const DOT: byte := 46

  datatype Mode = Normal | Newline | Tilde | Disconnected

  /** Bytes forwarded and the mode afterwards. */
  datatype Result = Result(out: seq<byte>, mode: Mode)

  predicate EndsLine(b: byte) {
    b == NEWLINE || b == RETURN
  }

  function Emit(bs: seq<byte>, rest: Result): Result {
    Result(bs + rest.out, rest.mode)
  }

  /** What the filter makes of the first one or two bytes: bytes to forward and how many it used, or a stop. */
  datatype Piece = Piece(out: seq<byte>, mode: Mode, used: nat) | Stop(mode: Mode)

  function First(mode: Mode, input: seq<byte>): (p: Piece)
    requires input != []
    ensures p.Piece? ==> |p.out| <= p.used <= |input| && 0 < p.used && (p.mode == Normal || p.mode == Newline)
    ensures p.Stop? ==> p.mode == Disconnected || (p.mode == Tilde && input == [TILDE])
  {
    var b := input[0];
    if EndsLine(b) then Piece([b], Newline, 1)
    else if b != TILDE || mode != Newline then Piece([b], Normal, 1)
    else if |input| == 1 then Stop(Tilde)
    else if input[1] == DOT then Stop(Disconnected)
    else if input[1] == TILDE then Piece([TILDE], Newline, 2)
    else Piece([TILDE, input[1]], Normal, 2)
  }

  /** The filter on a stretch of typed bytes. */
  function Run(mode: Mode, input: seq<byte>): Result
    decreases |input|
  {
    if input == [] then Result([], mode)
    else
      match First(mode, input)
      case Stop(m) => Result([], m)
      case Piece(out, m, used) => Emit(out, Run(m, input[used..]))
  }

  /** What one Read does with the bytes it obtains, given the room in the caller's buffer. In Tilde mode a buffer of
      one byte flushes the pending tilde without reading, and only the first byte obtained is looked at. */
  function ReadResult(mode: Mode, room: nat, input: seq<byte>): Result {
    match mode
    case Disconnected => Result([], Disconnected)
    case Tilde =>
      if room < 2 then Result([TILDE], Normal)
      else if input == [] then Result([], Tilde)
      else if input[0] == DOT then Result([], Disconnected)
      else if input[0] == TILDE then Result([TILDE], Tilde)
      else Result([TILDE] + input, Normal)
    case _ => Run(mode, input)
  }

  /** How many bytes a Read may obtain. */
  function Obtains(mode: Mode, room: nat): nat {
    match mode
    case Disconnected => 0
    case Tilde => if room < 2 then 0 else room - 1
    case _ => room
  }

  // ---- The reader ----------------------------------------------------------------------------

  class RawReader {
    var mode: Mode
    var cancelled: bool

    constructor ()
      ensures mode == Newline && !cancelled
    {
      mode, cancelled := Newline, false;
    }

    /** Reads into `p`; `input` is what standard input has ready. The first `n` bytes of `p` are to be forwarded. */
    method Read(p: array<byte>, input: seq<byte>) returns (n: nat)
      requires |input| <= Obtains(mode, p.Length) && (mode == Tilde ==> p.Length > 0)
      modifies this, p
      ensures n <= p.Length
      ensures Result(p[..n], mode) == ReadResult(old(mode), p.Length, input)
      ensures cancelled <==> old(cancelled) || mode == Disconnected
    {
      if mode == Disconnected {
        cancelled := true;
        return 0;
      }
      if mode == Tilde {
        if p.Length < 2 {
          mode := Normal;
          p[0] := TILDE;
          return 1;
        }
        forall i | 0 <= i < |input| {
          p[i + 1] := input[i];
        }
        if |input| == 0 {
          return 0;
        }
        if p[1] == DOT {
          mode, cancelled := Disconnected, true;
          return 0;
        } else if p[1] == TILDE {
          p[0] := TILDE;
          return 1;
        } else {
          mode := Normal;
          p[0] := TILDE;
          assert p[..1 + |input|] == [TILDE] + input;
          return 1 + |input|;
        }
      }
      forall i | 0 <= i < |input| {
        p[i] := input[i];
      }
      n := Compact(p, input);
    }

    /** Filters the first |input| bytes of `p` in place: `out` counts the bytes written, `i` those read. */
    method Compact(p: array<byte>, input: seq<byte>) returns (out: nat)
      requires |input| <= p.Length && p[..|input|] == input && (mode == Normal || mode == Newline)
      modifies this, p
      ensures out <= p.Length
      ensures Result(p[..out], mode) == Run(old(mode), input)
      ensures cancelled <==> old(cancelled) || mode == Disconnected
    {
      var i, stop := 0, false;
      out := 0;
      ghost var rest := input;
      ghost var kept: seq<byte> := [];
      while i < |input|
        invariant 0 <= out <= i <= |input|
        invariant mode == Normal || mode == Newline
        invariant cancelled == old(cancelled)
        invariant rest == p[i..|input|] && kept == p[..out]
        invariant Run(old(mode), input) == Emit(kept, Run(mode, rest))
      {
        Forwarded(mode, rest, kept);
        ghost var first := First(mode, rest);
        i, out, stop := Advance(p, i, |input|, out);
        if stop {
          return;
        }
        rest := rest[first.used..];
        kept := kept + first.out;
      }
      assert kept + [] == kept;
    }

    /** One pass of the loop: resolves the byte at `i`, and the one behind it when an escape needs it. The bytes from
        the new position on are left as they were. */
    method Advance(p: array<byte>, i: nat, n: nat, out: nat) returns (i': nat, out': nat, stop: bool)
      requires out <= i < n <= p.Length && (mode == Normal || mode == Newline)
      modifies this, p
      ensures out' <= i' <= n && i < i'
      ensures cancelled <==> old(cancelled) || mode == Disconnected
      ensures var first := First(old(mode), old(p[i..n]));
        && mode == first.mode && stop == first.Stop?
        && (if stop then p[..out'] == old(p[..out])
            else p[..out'] == old(p[..out]) + first.out && p[i'..n] == old(p[i..n])[first.used..])
    {
      ghost var kept := p[..out];
      ghost var rest := p[i..n];
      i', out', stop := i, out, false;
      var b := p[i'];
      assert b == rest[0];
      if b == NEWLINE || b == RETURN {
        mode := Newline;
      } else if b == TILDE {
        if mode == Newline {
          if i' + 1 < n {
            i' := i' + 1;
            var c := p[i'];
            assert c == rest[1];
            if c == DOT {
              mode, cancelled := Disconnected, true;
              return i' + 1, out', true;
            } else if c == TILDE {
              p[out'] := TILDE;
              assert p[..out + 1] == kept + [TILDE];
              return i' + 1, out' + 1, false;
            } else {
              mode := Normal;
              p[out'] := TILDE;
              p[out' + 1] := c;
              assert p[..out + 2] == kept + [TILDE, c];
              return i' + 1, out' + 2, false;
            }
          }
          mode := Tilde;
          assert rest == [TILDE];
          return i' + 1, out', true;
        }
        mode := Normal;
      } else {
        mode := Normal;
      }
      p[out'] := b;
      assert p[..out + 1] == kept + [b];
      return i' + 1, out' + 1, false;
    }
  }

  /** One step of the filter with the bytes forwarded so far in front. */
  lemma Forwarded(mode: Mode, rest: seq<byte>, kept: seq<byte>)
    requires rest != []
    ensures Emit(kept, Run(mode, rest)) ==
      match First(mode, rest)
      case Stop(m) => Result(kept, m)
      case Piece(out, m, used) => Emit(kept + out, Run(m, rest[used..]))
  {
    match First(mode, rest)
    case Stop(_) =>
    case Piece(out, m, used) => EmitTwice(kept, out, Run(m, rest[used..]));
  }

  // ---- Sequences of reads --------------------------------------------------------------------

  datatype Chunk = Chunk(room: nat, input: seq<byte>)

  /** All bytes forwarded by a run of reads, and the final mode. */
  function Reads(mode: Mode, chunks: seq<Chunk>): Result
    decreases |chunks|
  {
    if chunks == [] then Result([], mode)
    else
      var first := ReadResult(mode, chunks[0].room, chunks[0].input);
      Emit(first.out, Reads(first.mode, chunks[1..]))
  }

  /** Everything typed in a run of reads. */
  function Typed(chunks: seq<Chunk>): seq<byte> {
    if chunks == [] then [] else chunks[0].input + Typed(chunks[1..])
  }

  lemma {:induction false} EmitTwice(a: seq<byte>, b: seq<byte>, r: Result)
    ensures Emit(a, Emit(b, r)) == Emit(a + b, r)
  {
    assert a + (b + r.out) == (a + b) + r.out;
  }

  lemma FirstExtends(mode: Mode, a: seq<byte>, b: seq<byte>)
    requires a != [] && First(mode, a) != Stop(Tilde)
    ensures First(mode, a + b) == First(mode, a)
    ensures First(mode, a).Piece? ==> (a + b)[First(mode, a).used..] == a[First(mode, a).used..] + b
  {
  }

  /** The filter can be interrupted anywhere but on a pending tilde. */
  lemma {:induction false} RunSplits(mode: Mode, a: seq<byte>, b: seq<byte>)
    requires mode == Normal || mode == Newline
    requires Run(mode, a).mode != Tilde
    ensures Run(mode, a + b) ==
      if Run(mode, a).mode == Disconnected then Run(mode, a) else Emit(Run(mode, a).out, Run(Run(mode, a).mode, b))
    decreases |a|
  {
    if a == [] {
      assert a + b == b;
    } else {
      FirstExtends(mode, a, b);
      match First(mode, a)
      case Stop(_) =>
      case Piece(out, m, used) =>
        var ra := Run(m, a[used..]);
        RunSplits(m, a[used..], b);
        EmitTwice(out, ra.out, Run(ra.mode, b));
    }
  }

  lemma {:induction false} DisconnectedForwardsNothing(chunks: seq<Chunk>)
    ensures Reads(Disconnected, chunks) == Result([], Disconnected)
    decreases |chunks|
  {
    if chunks != [] {
      DisconnectedForwardsNothing(chunks[1..]);
    }
  }

  // ---- What the filter is for ----------------------------------------------------------------

  /** Whether the filter takes the byte behind `text` for the first of a line, read off the text alone. The beginning
      counts if the session is at a line start; a line end counts unless an opening tilde stands right in front of it;
      two tildes count if the place in front of them does. */
  predicate LineStart(mode: Mode, text: seq<byte>)
    decreases |text|
  {
    var n := |text|;
    if n == 0 then mode == Newline
    else if EndsLine(text[n - 1]) then !(n > 1 && text[n - 2] == TILDE && LineStart(mode, text[..n - 2]))
    else n > 1 && text[n - 1] == text[n - 2] == TILDE && LineStart(mode, text[..n - 2])
  }

  /** The byte at `i` is a tilde at a line start. */
  predicate OpeningTilde(mode: Mode, text: seq<byte>, i: nat) {
    i < |text| && text[i] == TILDE && LineStart(mode, text[..i])
  }

  /** An escape to disconnect stands at position `k`: an opening tilde followed by a dot. */
  predicate EscapeAt(mode: Mode, text: seq<byte>, k: nat) {
    OpeningTilde(mode, text, k) && k + 1 < |text| && text[k + 1] == DOT
  }

  /** Behind the first piece, line starts are those of the rest. */
  lemma {:induction false} LineStartShift(mode: Mode, text: seq<byte>, i: nat)
    requires (mode == Normal || mode == Newline) && text != [] && First(mode, text).Piece?
    requires First(mode, text).used + i <= |text|
    ensures var p := First(mode, text);
      LineStart(mode, text[..p.used + i]) == LineStart(p.mode, text[p.used..][..i])
  {
    var p := First(mode, text);
    var whole, rest := text[..p.used + i], text[p.used..][..i];
    assert forall j :: 0 <= j < i ==> rest[j] == whole[p.used + j];
    if i < 2 {
      assert whole[..|whole| - 1] == text[..p.used + i - 1];
      assert p.used == 2 ==> text[..0] == [] && text[..1] == [TILDE];
      if p.used + i >= 2 {
        assert whole[..p.used + i - 2] == text[..p.used + i - 2];
      }
    } else {
      LineStartShift(mode, text, i - 2);
      assert whole[..|whole| - 2] == text[..p.used + (i - 2)];
      assert rest[..i - 2] == text[p.used..][..i - 2];
    }
  }

  /** The whole text, cut behind the first piece. */
  lemma LineStartRest(mode: Mode, text: seq<byte>)
    requires (mode == Normal || mode == Newline) && text != [] && First(mode, text).Piece?
    ensures var p := First(mode, text); LineStart(mode, text) == LineStart(p.mode, text[p.used..])
  {
    var p := First(mode, text);
    LineStartShift(mode, text, |text| - p.used);
    assert text[..|text|] == text && text[p.used..][..|text| - p.used] == text[p.used..];
  }

  /** Until it disconnects, the filter is in its newline state exactly at the line starts of the text. */
  lemma {:induction false} NewlineIffLineStart(mode: Mode, text: seq<byte>)
    requires (mode == Normal || mode == Newline) && Run(mode, text).mode != Disconnected
    ensures Run(mode, text).mode == Newline <==> LineStart(mode, text)
    decreases |text|
  {
    if text != [] {
      match First(mode, text)
      case Stop(_) =>
      case Piece(_, m, used) =>
        NewlineIffLineStart(m, text[used..]);
        LineStartRest(mode, text);
    }
  }

  lemma {:induction false} DisconnectHasEscape(mode: Mode, text: seq<byte>) returns (k: nat)
    requires (mode == Normal || mode == Newline) && Run(mode, text).mode == Disconnected
    ensures EscapeAt(mode, text, k)
    decreases |text|
  {
    match First(mode, text)
    case Stop(_) =>
      k := 0;
    case Piece(_, m, used) =>
      var j := DisconnectHasEscape(m, text[used..]);
      k := used + j;
      LineStartShift(mode, text, j);
  }

  /** At an escape everything in front of it has been forwarded, unless the filter had disconnected even before. */
  lemma EscapeDisconnects(mode: Mode, text: seq<byte>, k: nat)
    requires (mode == Normal || mode == Newline) && EscapeAt(mode, text, k)
    ensures Run(mode, text) == Result(Run(mode, text[..k]).out, Disconnected)
  {
    var before := Run(mode, text[..k]);
    if before.mode != Disconnected {
      NewlineIffLineStart(mode, text[..k]);
    }
    assert text == text[..k] + text[k..];
    RunSplits(mode, text[..k], text[k..]);
    assert Run(Newline, text[k..]) == Result([], Disconnected);
    assert before.out + [] == before.out;
  }

  /** The filter disconnects exactly when the text holds an escape. */
  lemma DisconnectsIffEscape(mode: Mode, text: seq<byte>)
    requires mode == Normal || mode == Newline
    ensures Run(mode, text).mode == Disconnected <==> exists k: nat :: EscapeAt(mode, text, k)
  {
    if Run(mode, text).mode == Disconnected {
      var k := DisconnectHasEscape(mode, text);
    }
    forall k: nat | EscapeAt(mode, text, k)
      ensures Run(mode, text).mode == Disconnected
    {
      EscapeDisconnects(mode, text, k);
    }
  }

  /** The byte at `i` is a tilde at the start of the input or right behind a line end. */
  predicate TildeOpensLine(mode: Mode, input: seq<byte>, i: nat)
    requires i < |input|
  {
    input[i] == TILDE && if i == 0 then mode == Newline else EndsLine(input[i - 1])
  }

  /** Line ends alone do not tell where an escape stands: behind a tilde that opens a line, a line end does not
      start a new one, so tilde-dot on the next line is forwarded; and behind a doubled tilde, tilde-dot
      disconnects in mid-line. */
  lemma LineEndsDoNotDecide()
    ensures var text: seq<byte> := [126, 10, 126, 46];
      Run(Newline, text) == Result(text, Normal) && TildeOpensLine(Newline, text, 2)
    ensures var text: seq<byte> := [126, 126, 126, 46];
      Run(Newline, text) == Result([126], Disconnected) && !TildeOpensLine(Newline, text, 2)
    ensures forall b: byte :: EndsLine(b) <==> b == 10 || b == 13
  {
    var text := [TILDE, NEWLINE, TILDE, DOT];
    assert text[2..] == [TILDE, DOT] && [TILDE, DOT][1..] == [DOT] && [DOT][1..] == [];
    assert Run(Normal, [DOT]) == Result([DOT] + [], Normal);
    assert Run(Normal, [TILDE, DOT]) == Result([TILDE] + [DOT], Normal);
    assert [TILDE, NEWLINE] + [TILDE, DOT] == text;
    var twice := [TILDE, TILDE, TILDE, DOT];
    assert twice[2..] == [TILDE, DOT];
    assert Run(Newline, [TILDE, DOT]) == Result([], Disconnected);
  }

  // ---- What passes unchanged -----------------------------------------------------------------

  /** If the byte at `i` is an opening tilde, it is followed by a byte other than a tilde and a dot. */
  predicate PassesAt(mode: Mode, text: seq<byte>, i: nat) {
    OpeningTilde(mode, text, i) ==> i + 1 < |text| && text[i + 1] != TILDE && text[i + 1] != DOT
  }

  predicate Passes(mode: Mode, text: seq<byte>) {
    forall i: nat :: i < |text| ==> PassesAt(mode, text, i)
  }

  /** A piece passes unchanged and so does the rest, or the text does not. */
  lemma PassesPiecewise(mode: Mode, text: seq<byte>)
    requires (mode == Normal || mode == Newline) && text != [] && First(mode, text).Piece?
    ensures var p := First(mode, text);
      Passes(mode, text) <==> p.out == text[..p.used] && Passes(p.mode, text[p.used..])
  {
    var p := First(mode, text);
    var rest := text[p.used..];
    forall i: nat | i < |rest|
      ensures PassesAt(p.mode, rest, i) <==> PassesAt(mode, text, p.used + i)
    {
      LineStartShift(mode, text, i);
    }
    assert PassesAt(mode, text, 0) <==> p.out == text[..p.used] by {
      assert text[..0] == [] && (p.used == 1 ==> text[..1] == [text[0]]);
    }
    if p.used == 2 {
      assert text[..1] == [TILDE];
      assert PassesAt(mode, text, 1);
    }
    forall i: nat | p.used <= i < |text|
      ensures PassesAt(mode, text, i) <==> PassesAt(p.mode, rest, i - p.used)
    {
      assert PassesAt(p.mode, rest, i - p.used) <==> PassesAt(mode, text, p.used + (i - p.used));
    }
    if Passes(mode, text) {
      assert PassesAt(mode, text, 0);
    }
  }

  lemma {:induction false} NothingAdded(mode: Mode, text: seq<byte>)
    ensures |Run(mode, text).out| <= |text|
    ensures Run(mode, text).mode == Tilde || Run(mode, text).mode == Disconnected ==> text == [] || |Run(mode, text).out| < |text|
    decreases |text|
  {
    if text != [] {
      match First(mode, text)
      case Stop(_) =>
      case Piece(_, m, used) => NothingAdded(m, text[used..]);
    }
  }

  /** Two parts no longer than those of a cut text make up the text only if they are those parts. */
  lemma Together(out: seq<byte>, rest: seq<byte>, text: seq<byte>, used: nat)
    requires |out| <= used <= |text| && |rest| <= |text| - used
    ensures out + rest == text <==> out == text[..used] && rest == text[used..]
  {
    assert text[..used] + text[used..] == text;
    if out + rest == text {
      assert |out| == used;
      assert (out + rest)[..used] == out && (out + rest)[used..] == rest;
    }
  }

  lemma StopIsNotUnchanged(mode: Mode, text: seq<byte>)
    requires text != [] && First(mode, text).Stop?
    ensures !Passes(mode, text) && Run(mode, text).out == []
  {
    assert text[..0] == [];
    assert !PassesAt(mode, text, 0);
  }

  lemma RunOfPiece(mode: Mode, text: seq<byte>)
    requires text != [] && First(mode, text).Piece?
    ensures var p := First(mode, text); Run(mode, text).out == p.out + Run(p.mode, text[p.used..]).out
  {
  }

  /** Text passes unchanged exactly when every opening tilde is followed by a byte other than a tilde and a dot. */
  lemma {:induction false} UnchangedIffPasses(mode: Mode, text: seq<byte>)
    requires mode == Normal || mode == Newline
    ensures Run(mode, text).out == text <==> Passes(mode, text)
    decreases |text|
  {
    if text != [] {
      var p := First(mode, text);
      if p.Stop? {
        StopIsNotUnchanged(mode, text);
      } else {
        UnchangedIffPasses(p.mode, text[p.used..]);
        PassesPiecewise(mode, text);
        RunOfPiece(mode, text);
        NothingAdded(p.mode, text[p.used..]);
        Together(p.out, Run(p.mode, text[p.used..]).out, text, p.used);
      }
    }
  }

  lemma {:induction false} NoOpeningTilde(mode: Mode, text: seq<byte>, i: nat)
    requires forall j: nat :: j < |text| ==> !TildeOpensLine(mode, text, j)
    ensures !OpeningTilde(mode, text, i)
  {
    if i < |text| {
      assert !TildeOpensLine(mode, text, i);
      if i > 1 {
        NoOpeningTilde(mode, text, i - 2);
        assert text[..i][..i - 2] == text[..i - 2];
      }
    }
  }

  /** Text in which no line opens with a tilde passes unchanged. */
  lemma PlainTextPasses(mode: Mode, text: seq<byte>)
    requires mode == Normal || mode == Newline
    requires forall i: nat :: i < |text| ==> !TildeOpensLine(mode, text, i)
    ensures Run(mode, text).out == text
  {
    forall i: nat | i < |text|
      ensures PassesAt(mode, text, i)
    {
      NoOpeningTilde(mode, text, i);
    }
    UnchangedIffPasses(mode, text);
  }

  // ---- What is forwarded, exactly ------------------------------------------------------------

  /** An opening tilde is not forwarded if another tilde follows it or nothing has followed it yet. */
  predicate DropsAt(mode: Mode, text: seq<byte>, i: nat) {
    OpeningTilde(mode, text, i) && (i + 1 == |text| || text[i + 1] == TILDE)
  }

  /** The bytes from `i` on, without the tildes that are dropped. */
  function Remaining(mode: Mode, text: seq<byte>, i: nat): seq<byte>
    requires i <= |text|
    decreases |text| - i
  {
    if i == |text| then []
    else (if DropsAt(mode, text, i) then [] else [text[i]]) + Remaining(mode, text, i + 1)
  }

  lemma {:induction false} RemainingShift(mode: Mode, text: seq<byte>, i: nat)
    requires (mode == Normal || mode == Newline) && text != [] && First(mode, text).Piece?
    requires First(mode, text).used + i <= |text|
    ensures var p := First(mode, text);
      Remaining(mode, text, p.used + i) == Remaining(p.mode, text[p.used..], i)
    decreases |text| - i
  {
    var p := First(mode, text);
    if p.used + i < |text| {
      LineStartShift(mode, text, i);
      assert DropsAt(mode, text, p.used + i) <==> DropsAt(p.mode, text[p.used..], i);
      RemainingShift(mode, text, i + 1);
    }
  }

  lemma FirstRemaining(mode: Mode, text: seq<byte>)
    requires (mode == Normal || mode == Newline) && text != [] && First(mode, text).Piece?
    ensures var p := First(mode, text);
      Remaining(mode, text, 0) == p.out + Remaining(mode, text, p.used)
  {
    var p := First(mode, text);
    assert text[..0] == [];
    if p.used == 2 {
      assert text[..1] == [TILDE];
      assert !OpeningTilde(mode, text, 1);
      assert Remaining(mode, text, 1) == [text[1]] + Remaining(mode, text, 2);
    }
  }

  /** Unless the text holds an escape, exactly the bytes typed are forwarded, without one tilde of every pair at a line
      start and without a last one that is held back. */
  lemma {:induction false} ForwardedIs(mode: Mode, text: seq<byte>)
    requires (mode == Normal || mode == Newline) && Run(mode, text).mode != Disconnected
    ensures Run(mode, text).out == Remaining(mode, text, 0)
    decreases |text|
  {
    if text != [] {
      var p := First(mode, text);
      if p.Stop? {
        assert text[..0] == [];
        assert DropsAt(mode, text, 0) && Remaining(mode, text, 1) == [];
      } else {
        RunOfPiece(mode, text);
        ForwardedIs(p.mode, text[p.used..]);
        FirstRemaining(mode, text);
        RemainingShift(mode, text, 0);
      }
    }
  }

  // ---- Where the input may be cut ------------------------------------------------------------

  /** The text ends on an opening tilde and holds no escape before it. */
  ghost predicate EndsPending(mode: Mode, text: seq<byte>) {
    text != [] && OpeningTilde(mode, text, |text| - 1) && !exists k: nat :: EscapeAt(mode, text, k)
  }

  lemma {:induction false} HeldBackIsOpening(mode: Mode, text: seq<byte>)
    requires (mode == Normal || mode == Newline) && Run(mode, text).mode == Tilde
    ensures text != [] && OpeningTilde(mode, text, |text| - 1)
    decreases |text|
  {
    match First(mode, text)
    case Stop(_) =>
    case Piece(_, m, used) =>
      HeldBackIsOpening(m, text[used..]);
      LineStartShift(mode, text, |text| - used - 1);
  }

  /** A tilde is held back exactly at such an end. */
  lemma HeldBackIffEndsPending(mode: Mode, text: seq<byte>)
    requires mode == Normal || mode == Newline
    ensures Run(mode, text).mode == Tilde <==> EndsPending(mode, text)
  {
    DisconnectsIffEscape(mode, text);
    if Run(mode, text).mode == Tilde {
      HeldBackIsOpening(mode, text);
    } else if EndsPending(mode, text) {
      var before := text[..|text| - 1];
      assert text == before + [TILDE];
      if Run(mode, before).mode != Tilde {
        RunSplits(mode, before, [TILDE]);
      }
      NewlineIffLineStart(mode, before);
      assert false;
    }
  }

  /** No read ends right behind an opening tilde, except after an escape. */
  ghost predicate NoPendingTilde(mode: Mode, chunks: seq<Chunk>) {
    forall j: nat :: j <= |chunks| ==> !EndsPending(mode, Typed(chunks[..j]))
  }

  lemma NoPendingRest(mode: Mode, chunks: seq<Chunk>)
    requires (mode == Normal || mode == Newline) && chunks != [] && NoPendingTilde(mode, chunks)
    ensures var first := Run(mode, chunks[0].input).mode;
      first != Tilde && (first != Disconnected ==> NoPendingTilde(first, chunks[1..]))
  {
    var input := chunks[0].input;
    var first := Run(mode, input).mode;
    assert Typed(chunks[..1]) == input by {
      assert chunks[..1][1..] == [] && input + [] == input;
    }
    HeldBackIffEndsPending(mode, input);
    assert !EndsPending(mode, Typed(chunks[..1]));
    if first != Disconnected {
      forall j: nat | j <= |chunks[1..]|
        ensures !EndsPending(first, Typed(chunks[1..][..j]))
      {
        var later := Typed(chunks[1..][..j]);
        assert chunks[..j + 1][1..] == chunks[1..][..j];
        assert !EndsPending(mode, Typed(chunks[..j + 1]));
        assert Typed(chunks[..j + 1]) == input + later;
        RunSplits(mode, input, later);
        HeldBackIffEndsPending(mode, input + later);
        HeldBackIffEndsPending(first, later);
      }
    }
  }

  /** However the input is cut, as long as no read ends right behind an opening tilde, the bytes forwarded are those
      of the filter on the whole input. */
  lemma {:induction false} ChunkingIsInvisible(mode: Mode, chunks: seq<Chunk>)
    requires mode == Normal || mode == Newline
    requires NoPendingTilde(mode, chunks)
    ensures Reads(mode, chunks) == Run(mode, Typed(chunks))
    decreases |chunks|
  {
    if chunks != [] {
      var first := ReadResult(mode, chunks[0].room, chunks[0].input);
      NoPendingRest(mode, chunks);
      RunSplits(mode, chunks[0].input, Typed(chunks[1..]));
      if first.mode == Disconnected {
        DisconnectedForwardsNothing(chunks[1..]);
        assert first.out + [] == first.out;
      } else {
        ChunkingIsInvisible(first.mode, chunks[1..]);
      }
    }
  }

  // ---- For every chunking --------------------------------------------------------------------

  /** A tilde held back but already typed. */
  function Pending(mode: Mode): seq<byte> {
    if mode == Tilde then [TILDE] else []
  }

  /** The bytes a piece forwards are among those it uses. */
  lemma PieceOnlyDrops(mode: Mode, input: seq<byte>)
    requires input != [] && First(mode, input).Piece?
    ensures Subsequence(First(mode, input).out, input[..First(mode, input).used])
  {
    var p := First(mode, input);
    var used := input[..p.used];
    assert p.used == 1 ==> used == [input[0]];
    assert p.used == 2 ==> used == [input[0], input[1]];
    SubsequenceReflexive(used);
    if p.out != used {
      SubsequenceReflexive([TILDE]);
      SubsequenceExtend([TILDE], [TILDE], TILDE);
      assert [TILDE] + [TILDE] == used;
    }
  }

  /** The filter only drops bytes: what it forwards, and a tilde it holds back, were typed in that order. */
  lemma {:induction false} RunOnlyDrops(mode: Mode, input: seq<byte>)
    requires mode == Normal || mode == Newline
    ensures Subsequence(Run(mode, input).out + Pending(Run(mode, input).mode), input)
    decreases |input|
  {
    if input != [] {
      match First(mode, input)
      case Stop(m) =>
        if m == Tilde {
          SubsequenceReflexive(input);
          assert [] + [TILDE] == input;
        }
      case Piece(out, m, used) =>
        var rest := Run(m, input[used..]);
        RunOnlyDrops(m, input[used..]);
        PieceOnlyDrops(mode, input);
        SubsequenceAppend(out, input[..used], rest.out + Pending(rest.mode), input[used..]);
        assert input[..used] + input[used..] == input;
        assert out + (rest.out + Pending(rest.mode)) == (out + rest.out) + Pending(rest.mode);
    }
  }

  /** One read: what is forwarded and then held back was held back before or typed now, in order. */
  lemma ReadOnlyDrops(mode: Mode, room: nat, input: seq<byte>)
    ensures var r := ReadResult(mode, room, input);
      Subsequence(r.out + Pending(r.mode), Pending(mode) + input)
  {
    var r := ReadResult(mode, room, input);
    match mode
    case Disconnected =>
    case Tilde =>
      if room < 2 || input == [] {
        assert r.out + Pending(r.mode) == [TILDE];
        SubsequenceReflexive([TILDE]);
        SubsequenceAppend([TILDE], [TILDE], [], input);
        assert [TILDE] + [] == [TILDE];
      } else if input[0] == TILDE {
        assert input == [TILDE] + input[1..];
        SubsequenceReflexive([TILDE, TILDE]);
        SubsequenceAppend([TILDE, TILDE], [TILDE, TILDE], [], input[1..]);
        assert [TILDE, TILDE] + [] == r.out + Pending(r.mode);
        assert [TILDE, TILDE] + input[1..] == Pending(mode) + input;
      } else if input[0] != DOT {
        SubsequenceReflexive([TILDE] + input);
        assert r.out + Pending(r.mode) == [TILDE] + input;
      }
    case _ =>
      RunOnlyDrops(mode, input);
      assert Pending(mode) + input == input;
  }

  lemma Compose(out: seq<byte>, held: seq<byte>, rest: seq<byte>, typed: seq<byte>, later: seq<byte>)
    requires Subsequence(out + held, typed) && Subsequence(rest, held + later)
    ensures Subsequence(out + rest, typed + later)
  {
    SubsequenceAfter(out, rest, held + later);
    SubsequenceBefore(out + held, typed, later);
    AppendAssociates(out, held, later);
    SubsequenceTransitive(out + rest, out + (held + later), typed + later);
  }

  /** For every way of cutting the input, what is forwarded is a subsequence of what was typed. */
  lemma {:induction false} ForwardedWasTyped(mode: Mode, chunks: seq<Chunk>)
    ensures Subsequence(Reads(mode, chunks).out + Pending(Reads(mode, chunks).mode), Pending(mode) + Typed(chunks))
    decreases |chunks|
  {
    if chunks == [] {
      assert [] + Pending(mode) == Pending(mode) + [];
      SubsequenceReflexive(Pending(mode));
    } else {
      var input := chunks[0].input;
      var first := ReadResult(mode, chunks[0].room, input);
      var rest := Reads(first.mode, chunks[1..]);
      ReadOnlyDrops(mode, chunks[0].room, input);
      ForwardedWasTyped(first.mode, chunks[1..]);
      Compose(first.out, Pending(first.mode), rest.out + Pending(rest.mode), Pending(mode) + input, Typed(chunks[1..]));
      AppendAssociates(first.out, rest.out, Pending(rest.mode));
      AppendAssociates(Pending(mode), input, Typed(chunks[1..]));
    }
  }

  // ---- Where cutting shows -------------------------------------------------------------------

  /** Typing two tildes and a letter sends one tilde and the letter; cut between the tildes, the letter is lost and the
      second tilde is still pending. */
  lemma CutDoubleTildeDiffers(letter: byte)
    requires letter != TILDE && letter != DOT
    ensures Run(Newline, [TILDE, TILDE, letter]).out == [TILDE, letter]
    ensures Reads(Newline, [Chunk(9, [TILDE]), Chunk(9, [TILDE, letter])]) == Result([TILDE], Tilde)
  {
    var whole := [TILDE, TILDE, letter];
    assert whole[2..] == [letter] && [letter][1..] == [];
    assert Run(Newline, [letter]).out == [letter] + [];
    var second := [Chunk(9, [TILDE, letter])];
    var chunks := [Chunk(9, [TILDE])] + second;
    assert [Chunk(9, [TILDE]), Chunk(9, [TILDE, letter])] == chunks;
    assert chunks[1..] == second && second[1..] == [];
    assert ReadResult(Newline, 9, [TILDE]) == Result([], Tilde);
    assert Reads(Tilde, second) == Result([TILDE] + [], Tilde);
    assert [TILDE] + [] == [TILDE] && [] + [TILDE] == [TILDE];
  }

  /** A buffer of one byte flushes a pending tilde, and what comes next is plain text. */
  lemma SmallBufferFlushes(room: nat, input: seq<byte>)
    ensures Reads(Tilde, [Chunk(1, []), Chunk(room, input)]) == Emit([TILDE], Run(Normal, input))
  {
    var rest := [Chunk(room, input)];
    var chunks := [Chunk(1, []), Chunk(room, input)];
    assert chunks[1..] == rest && rest[1..] == [];
    var r := Run(Normal, input);
    assert r.out + [] == r.out;
    assert Reads(Normal, rest) == r;
  }

  /** A line that begins with a tilde, cut right behind it: the next read's bytes as the one-piece filter would
      treat them, and as the reader treats them. They agree exactly when the next byte is a dot; or it is any other
      byte but a tilde and behind it every opening tilde is followed by a byte other than a tilde and a dot, and the
      bytes do not end at a line start; or the bytes are two tildes. */
  lemma PendingTildeAgreesIff(next: seq<byte>)
    requires next != []
    ensures ReadResult(Tilde, |next| + 1, next) == Run(Newline, [TILDE] + next) <==>
      || next[0] == DOT
      || (next[0] != TILDE && Passes(Normal, next[1..]) && !LineStart(Normal, next[1..]))
      || next == [TILDE, TILDE]
  {
    TildeFirst(next);
    if next[0] == TILDE {
      TwoTildes(next);
    } else if next[0] != DOT {
      PassedOn(next, Run(Normal, next[1..]));
      UnchangedInNormal(next[1..]);
    }
  }

  lemma UnchangedInNormal(text: seq<byte>)
    ensures Run(Normal, text) == Result(text, Normal) <==> Passes(Normal, text) && !LineStart(Normal, text)
  {
    UnchangedIffPasses(Normal, text);
    NothingAdded(Normal, text);
    if Run(Normal, text).mode != Disconnected {
      NewlineIffLineStart(Normal, text);
    }
  }

  lemma PassedOn(next: seq<byte>, r: Result)
    requires next != []
    ensures Result([TILDE] + next, Normal) == Emit([TILDE, next[0]], r) <==> r == Result(next[1..], Normal)
  {
    SamePrefix([TILDE, next[0]], r.out, next[1..]);
    assert [TILDE] + next == [TILDE, next[0]] + next[1..];
  }

  lemma TwoTildes(next: seq<byte>)
    requires next != [] && next[0] == TILDE
    ensures Result([TILDE], Tilde) == Emit([TILDE], Run(Newline, next[1..])) <==> next == [TILDE, TILDE]
  {
    var r := Run(Newline, next[1..]);
    HoldsBackOnlyTilde(next[1..]);
    assert r.out == [] ==> [TILDE] + r.out == [TILDE];
    assert |[TILDE] + r.out| == 1 + |r.out|;
    assert next == [TILDE] + next[1..];
  }

  lemma TildeFirst(next: seq<byte>)
    requires next != []
    ensures Run(Newline, [TILDE] + next) ==
      if next[0] == DOT then Result([], Disconnected)
      else if next[0] == TILDE then Emit([TILDE], Run(Newline, next[1..]))
      else Emit([TILDE, next[0]], Run(Normal, next[1..]))
  {
    var whole := [TILDE] + next;
    assert whole[2..] == next[1..];
  }

  lemma SamePrefix(a: seq<byte>, b: seq<byte>, c: seq<byte>)
    ensures a + b == a + c <==> b == c
  {
    assert (a + b)[|a|..] == b && (a + c)[|a|..] == c;
  }

  /** At the start of a line, only a lone tilde is held back with nothing forwarded. */
  lemma HoldsBackOnlyTilde(input: seq<byte>)
    ensures Run(Newline, input) == Result([], Tilde) <==> input == [TILDE]
  {
  }
}
