/**
 * The serial link to the EiBotBoard as the motor driver sees it.
 *
 * Bytes the board will send are an input sequence `rx`; a read that raises
 * (the driver's "inWaiting lies sometimes" case) is a `Fault` entry.  The
 * driver's commands are logged as `Cmd` values in `tx`; `Render` gives the
 * exact text written to the port.  A read with nothing left in `rx` blocks
 * for ever (`Hung`); an exception leaving a motor method is `Raised`.
 */
module DeviceLink {

  datatype Rx = Byte(c: char) | Fault

  /** The EiBotBoard commands the driver emits. */
  datatype Cmd =
    | EM(em1: int, em2: int)          // enable motors with the given step modes
    | SM(ms: int, s1: int, s2: int)   // stepper move: duration, axis 1, axis 2
    | SP(pen: int)                    // pen (here: laser) servo, 0 = down
    | AC(channel: int)                // analog channel enable
    | AQuery                          // analog read-back

  datatype Status = Running | Hung | Raised

  datatype Link = Link(rx: seq<Rx>, tx: seq<Cmd>, status: Status)

  const OkReply: string := "OK\r\n"

  // ---------------------------------------------------------------------
  // Command text.

  function DigitChar(d: int): char
    requires 0 <= d < 10
  {
    ('0' as int + d) as char
  }

  function Digits(n: nat): string
  {
    if n < 10 then [DigitChar(n)] else Digits(n / 10) + [DigitChar(n % 10)]
  }

  /** Python's str() of an int. */
  function Decimal(n: int): string
  {
    if n < 0 then "-" + Digits(-n) else Digits(n)
  }

  function Render(c: Cmd): string
  {
    match c
    case EM(a, b) => "EM," + Decimal(a) + "," + Decimal(b) + "\r"
    case SM(ms, a, b) => "SM," + Decimal(ms) + "," + Decimal(a) + "," + Decimal(b) + "\r"
    case SP(v) => "SP," + Decimal(v) + "\r"
    case AC(an) => "AC," + Decimal(an) + ",1\r"
    case AQuery => "A,\r"
  }

  /** The bytes on the wire for a log of commands. */
  function Wire(log: seq<Cmd>): string
  {
    if log == [] then "" else Wire(log[..|log| - 1]) + Render(log[|log| - 1])
  }

  function DigitValue(c: char): int
  {
    if '0' <= c <= '9' then c as int - '0' as int else 0
  }

  /** Reads back a run of decimal digits. */
  function ParseDigits(s: string): int
  {
    if s == [] then 0 else ParseDigits(s[..|s| - 1]) * 10 + DigitValue(s[|s| - 1])
  }

  function ParseDecimal(s: string): int
  {
    if s != [] && s[0] == '-' then -ParseDigits(s[1..]) else ParseDigits(s)
  }

  lemma {:induction false} DigitsRoundTrip(n: nat)
    ensures |Digits(n)| >= 1 && Digits(n)[0] != '-'
    ensures forall k :: 0 <= k < |Digits(n)| ==> '0' <= Digits(n)[k] <= '9'
    ensures ParseDigits(Digits(n)) == n
  {
    if n >= 10 {
      DigitsRoundTrip(n / 10);
      var s := Digits(n);
      assert s[..|s| - 1] == Digits(n / 10);
    } else {
      assert ParseDigits(Digits(n)) == ParseDigits([]) * 10 + DigitValue(DigitChar(n));
    }
  }

  /** The text of every number in a command reads back as that number. */
  lemma DecimalRoundTrip(n: int)
    ensures ParseDecimal(Decimal(n)) == n
  {
    if n < 0 {
      DigitsRoundTrip(-n);
      assert Decimal(n)[1..] == Digits(-n);
    } else {
      DigitsRoundTrip(n);
    }
  }

  // ---------------------------------------------------------------------
  // Reading replies.

  /** Outcome of reading a reply: whether it matched and what is left unread. */
  datatype Reply = Reply(matched: bool, rest: seq<Rx>, status: Status)

  /** The comparing loop of chk_reply: one byte per expected character. */
  function Check(rx: seq<Rx>, s: string): Reply
    decreases |s|
  {
    if s == [] then Reply(true, rx, Running)
    else if rx == [] then Reply(false, rx, Hung)
    else match rx[0]
      case Fault => Reply(false, rx[1..], Raised)
      case Byte(c) => if c == s[0] then Check(rx[1..], s[1..]) else Discard(rx[1..], c)
  }

  /** The resync loop of chk_reply: discard up to a newline or until nothing is waiting. */
  function Discard(rx: seq<Rx>, ch: char): Reply
    decreases |rx|
  {
    if ch == '\n' || rx == [] then Reply(false, rx, Running)
    else match rx[0]
      case Fault => Reply(false, rx[1..], Raised)
      case Byte(c) => Discard(rx[1..], c)
  }

  function AsBytes(s: string): seq<Rx>
  {
    seq(|s|, k requires 0 <= k < |s| => Byte(s[k]))
  }

  /** chk_reply(s) succeeds exactly when the next |s| bytes are s. */
  lemma {:induction false} CheckMatches(rx: seq<Rx>, s: string)
    ensures Check(rx, s).matched <==> |s| <= |rx| && rx[..|s|] == AsBytes(s)
    ensures Check(rx, s).matched ==> Check(rx, s).rest == rx[|s|..] && Check(rx, s).status == Running
    decreases |s|
  {
    if s != [] && rx != [] {
      assert AsBytes(s) == [Byte(s[0])] + AsBytes(s[1..]);
      if rx[0] == Byte(s[0]) {
        CheckMatches(rx[1..], s[1..]);
        if |s| <= |rx| {
          assert rx[..|s|] == [rx[0]] + rx[1..][..|s| - 1];
        }
      } else {
        DiscardFails(rx[1..], if rx[0].Byte? then rx[0].c else '\n');
        if |s| <= |rx| {
          assert rx[..|s|][0] == rx[0];
        }
      }
    }
  }

  lemma {:induction false} DiscardFails(rx: seq<Rx>, ch: char)
    ensures !Discard(rx, ch).matched
    decreases |rx|
  {
    if !(ch == '\n' || rx == []) && rx[0].Byte? {
      DiscardFails(rx[1..], rx[0].c);
    }
  }

  /**
   * After a mismatch that does not raise, the resync loop stops either
   * right after a newline or with nothing left waiting; what it leaves is
   * a suffix of its input.
   */
  lemma {:induction false} DiscardStops(rx: seq<Rx>, ch: char)
    ensures var r := Discard(rx, ch);
      && |r.rest| <= |rx| && r.rest == rx[|rx| - |r.rest|..]
      && (r.status == Running ==>
            r.rest == [] || ((r.rest == rx ==> ch == '\n') && (r.rest != rx ==> rx[|rx| - |r.rest| - 1] == Byte('\n'))))
    decreases |rx|
  {
    if !(ch == '\n' || rx == []) && rx[0].Byte? {
      DiscardStops(rx[1..], rx[0].c);
      var r := Discard(rx[1..], rx[0].c);
      if r.rest == rx[1..] {
        assert rx[|rx| - |r.rest| - 1] == rx[0];
      }
    }
  }

  function ReadChars(rx: seq<Rx>, n: nat): (r: (string, seq<Rx>, Status))
    ensures r.2 == Running ==> |r.0| == n
  {
    if n == 0 then ("", rx, Running)
    else if rx == [] then ("", rx, Hung)
    else match rx[0]
      case Fault => ("", rx[1..], Raised)
      case Byte(c) =>
        var (tail, rest, st) := ReadChars(rx[1..], n - 1);
        ([c] + tail, rest, st)
  }

  /** get_chars(n) returns the next n bytes when they are all there. */
  lemma {:induction false} ReadCharsTakes(rx: seq<Rx>, s: string)
    requires |s| <= |rx| && rx[..|s|] == AsBytes(s)
    ensures ReadChars(rx, |s|) == (s, rx[|s|..], Running)
    decreases |s|
  {
    if s != [] {
      assert rx[0] == rx[..|s|][0] == AsBytes(s)[0];
      assert rx[1..][..|s| - 1] == rx[..|s|][1..];
      assert AsBytes(s)[1..] == AsBytes(s[1..]);
      ReadCharsTakes(rx[1..], s[1..]);
      assert [s[0]] + s[1..] == s;
    }
  }

  // ---------------------------------------------------------------------
  // send_ok.

  /** chk_reply on a live link. */
  function CheckReply(l: Link, s: string): (Link, bool)
  {
    var r := Check(l.rx, s);
    (Link(r.rest, l.tx, r.status), r.matched)
  }

  /** The retry loop of send_ok after `tries` failed attempts. */
  function SendOkFrom(l: Link, c: Cmd, tries: nat): Link
    requires l.status == Running
    decreases 3 - tries
  {
    if tries >= 3 then l
    else
      var (l', ok) := CheckReply(l.(tx := l.tx + [c]), OkReply);
      if ok || l'.status != Running then l' else SendOkFrom(l', c, tries + 1)
  }

  function Repeat(c: Cmd, k: nat): seq<Cmd>
  {
    seq(k, _ => c)
  }

  /**
   * send_ok writes the command between one and three times, stops at the
   * first reply that reads "OK\r\n", and after three failures carries on
   * as if it had succeeded.
   */
  lemma {:induction false} SendOkShape(l: Link, c: Cmd, tries: nat)
    requires l.status == Running && tries < 3
    ensures exists k :: 1 <= k <= 3 - tries && SendOkFrom(l, c, tries).tx == l.tx + Repeat(c, k)
    decreases 3 - tries
  {
    var (l', ok) := CheckReply(l.(tx := l.tx + [c]), OkReply);
    if ok || l'.status != Running || tries + 1 >= 3 {
      assert SendOkFrom(l, c, tries).tx == l.tx + Repeat(c, 1);
    } else {
      SendOkShape(l', c, tries + 1);
      var k :| 1 <= k <= 3 - (tries + 1) && SendOkFrom(l', c, tries + 1).tx == l'.tx + Repeat(c, k);
      assert l'.tx + Repeat(c, k) == l.tx + Repeat(c, k + 1);
    }
  }

  /** When the board answers "OK\r\n" the command is written once and the reply consumed. */
  lemma SendOkFirstTry(l: Link, c: Cmd)
    requires l.status == Running
    requires |OkReply| <= |l.rx| && l.rx[..|OkReply|] == AsBytes(OkReply)
    ensures SendOkFrom(l, c, 0) == Link(l.rx[|OkReply|..], l.tx + [c], Running)
  {
    CheckMatches(l.rx, OkReply);
  }

  /** Three bad replies: the command was written three times and send_ok still returns normally. */
  lemma SendOkGivesUp(c: Cmd)
    ensures var l := Link([Byte('X'), Byte('\n'), Byte('X'), Byte('\n'), Byte('X'), Byte('\n')], [], Running);
      SendOkFrom(l, c, 0) == Link([], [c, c, c], Running)
  {
  }

  /** n consecutive "OK\r\n" replies. */
  function Oks(n: nat): seq<Rx>
  {
    if n == 0 then [] else AsBytes(OkReply) + Oks(n - 1)
  }

  /** With OK replies waiting, send_ok writes the command once and consumes one reply. */
  lemma SendOkAnswered(l: Link, c: Cmd, n: nat, rest: seq<Rx>)
    requires l.status == Running && n >= 1 && l.rx == Oks(n) + rest
    ensures SendOkFrom(l, c, 0) == Link(Oks(n - 1) + rest, l.tx + [c], Running)
  {
    assert l.rx == AsBytes(OkReply) + (Oks(n - 1) + rest);
    assert l.rx[..|OkReply|] == AsBytes(OkReply);
    assert l.rx[|OkReply|..] == Oks(n - 1) + rest;
    SendOkFirstTry(l, c);
  }
}
