/** The decimal rendering of the indices that the formula embeds
    (`${m + 1}` in a JavaScript template), and `Array.prototype.join`. */
module Text {
  predicate IsDigit(c: char) { '0' <= c <= '9' }

  predicate AllDigits(s: string) { forall i :: 0 <= i < |s| ==> IsDigit(s[i]) }

  function Digit(d: nat): (c: char)
    requires d < 10
    ensures IsDigit(c)
  {
    (48 + d) as char
  }

  function DigitValue(c: char): (d: nat)
    requires IsDigit(c)
    ensures d < 10 && Digit(d) == c
  {
    c as int - 48
  }

  /** Decimal digits of n, without leading zeros. */
  function NatStr(n: nat): (s: string)
    ensures |s| > 0 && AllDigits(s)
    ensures s[0] == '0' ==> n == 0
  {
    if n < 10 then [Digit(n)] else NatStr(n / 10) + [Digit(n % 10)]
  }

  /** Reads decimal digits back; the partner of NatStr. */
  function ParseNat(s: string): nat
    requires AllDigits(s)
  {
    if |s| == 0 then 0 else ParseNat(s[..|s| - 1]) * 10 + DigitValue(s[|s| - 1])
  }

  lemma {:induction false} ParseNatStr(n: nat)
    ensures ParseNat(NatStr(n)) == n
  {
    var s := NatStr(n);
    if n < 10 {
      assert s[..0] == [];
    } else {
      assert s[..|s| - 1] == NatStr(n / 10);
      ParseNatStr(n / 10);
    }
  }

  /** Distinct numbers are rendered differently. */
  lemma NatStrInjective(a: nat, b: nat)
    ensures NatStr(a) == NatStr(b) <==> a == b
  {
    ParseNatStr(a);
    ParseNatStr(b);
  }

  /** `parts.join(sep)`: the parts in order with sep between neighbours. */
  function Join(parts: seq<string>, sep: string): string
  {
    if |parts| == 0 then ""
    else if |parts| == 1 then parts[0]
    else Join(parts[..|parts| - 1], sep) + sep + parts[|parts| - 1]
  }

  /** The same join read from the front: first part, separator, the rest. */
  function JoinFront(parts: seq<string>, sep: string): string
  {
    if |parts| == 0 then ""
    else if |parts| == 1 then parts[0]
    else parts[0] + sep + JoinFront(parts[1..], sep)
  }

  /** Joining from the back and from the front give the same string. */
  lemma {:induction false} JoinIsJoinFront(parts: seq<string>, sep: string)
    ensures Join(parts, sep) == JoinFront(parts, sep)
    decreases |parts|
  {
    var n := |parts|;
    if n == 2 {
      assert parts[..1] == [parts[0]];
      assert parts[1..] == [parts[1]];
    } else if n > 2 {
      var init := parts[..n - 1];
      var tail := parts[1..];
      var mid := parts[1..n - 1];
      assert init[1..] == mid;
      assert tail[..|tail| - 1] == mid;
      assert tail[|tail| - 1] == parts[n - 1];
      JoinIsJoinFront(init, sep);
      JoinIsJoinFront(tail, sep);
      JoinIsJoinFront(mid, sep);
      calc {
        Join(parts, sep);
        Join(init, sep) + sep + parts[n - 1];
        JoinFront(init, sep) + sep + parts[n - 1];
        parts[0] + sep + JoinFront(mid, sep) + sep + parts[n - 1];
        parts[0] + sep + (Join(mid, sep) + sep + parts[n - 1]);
        parts[0] + sep + Join(tail, sep);
        JoinFront(parts, sep);
      }
    }
  }
}
