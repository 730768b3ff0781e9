/**
 * `write!` into a `heapless::String<CAP>`, as the payload builders use it
 * with `.ok()`: a formatted write is a sequence of `write_str` pieces, each
 * piece is appended whole or not at all, the first piece that does not fit
 * ends that `write!` (the error is then discarded), and the next `write!`
 * starts afresh with whatever room is left.
 *
 * Payload text is ASCII, so one character is one byte.
 */
module Fmt {
  import opened Common

  /** The buffer after one `write!(buf, ...).ok()` made of `pieces`. */
  function Write(buf: string, cap: nat, pieces: seq<string>): (r: string)
    decreases |pieces|
  {
    if pieces == [] then buf
    else if |buf| + |pieces[0]| <= cap then Write(buf + pieces[0], cap, pieces[1..])
    else buf
  }

  function Concat(pieces: seq<string>): string
    decreases |pieces|
  {
    if pieces == [] then "" else pieces[0] + Concat(pieces[1..])
  }

  /**
   * A write only ever appends, never exceeds the capacity, and appends the
   * whole formatted text exactly when it fits.
   */
  lemma {:induction false} WriteAppends(buf: string, cap: nat, pieces: seq<string>)
    requires |buf| <= cap
    ensures |buf| <= |Write(buf, cap, pieces)| <= cap
    ensures Write(buf, cap, pieces)[..|buf|] == buf
    ensures |buf| + |Concat(pieces)| <= cap ==> Write(buf, cap, pieces) == buf + Concat(pieces)
    decreases |pieces|
  {
    if pieces != [] && |buf| + |pieces[0]| <= cap {
      var next := buf + pieces[0];
      WriteAppends(next, cap, pieces[1..]);
      var r := Write(buf, cap, pieces);
      assert r[..|buf|] == r[..|next|][..|buf|];
      if |buf| + |Concat(pieces)| <= cap {
        assert Concat(pieces) == pieces[0] + Concat(pieces[1..]);
        assert buf + Concat(pieces) == next + Concat(pieces[1..]);
      }
    }
  }

  /** Whatever part of a write lands in the buffer is a prefix of the full text. */
  lemma {:induction false} WriteIsPrefix(buf: string, cap: nat, pieces: seq<string>)
    ensures var r := Write(buf, cap, pieces);
      |r| <= |buf + Concat(pieces)| && r == (buf + Concat(pieces))[..|r|]
    decreases |pieces|
  {
    if pieces != [] {
      assert Concat(pieces) == pieces[0] + Concat(pieces[1..]);
      assert buf + Concat(pieces) == (buf + pieces[0]) + Concat(pieces[1..]);
      if |buf| + |pieces[0]| <= cap {
        WriteIsPrefix(buf + pieces[0], cap, pieces[1..]);
      }
    }
  }

  function DigitChar(d: nat): char
    requires d < 10
  {
    ['0', '1', '2', '3', '4', '5', '6', '7', '8', '9'][d]
  }

  /** Decimal `Display` of an unsigned integer. */
  function Decimal(n: nat): (s: string)
    ensures |s| >= 1
    decreases n
  {
    if n < 10 then [DigitChar(n)] else Decimal(n / 10) + [DigitChar(n % 10)]
  }

  function DigitValue(c: char): int {
    if '0' <= c <= '9' then c as int - '0' as int else -1
  }

  /** Reads back a string of decimal digits. */
  function ParseDecimal(s: string): int
    decreases |s|
  {
    if s == [] then 0 else 10 * ParseDecimal(s[..|s| - 1]) + DigitValue(s[|s| - 1])
  }

  /** `Decimal` writes only digits and reads back as the number it printed. */
  lemma {:induction false} DecimalRoundTrip(n: nat)
    ensures forall i :: 0 <= i < |Decimal(n)| ==> '0' <= Decimal(n)[i] <= '9'
    ensures ParseDecimal(Decimal(n)) == n
    decreases n
  {
    if n >= 10 {
      DecimalRoundTrip(n / 10);
      var s := Decimal(n);
      assert s[..|s| - 1] == Decimal(n / 10);
    }
  }
}
