/** Strings as Go compares and prints them. */
module Text {
  import Sequences

  /** Go's `<` on strings. Comparing UTF-8 bytes and comparing code points give one order. */
  predicate Less(a: string, b: string) {
    b != [] && (a == [] || a[0] < b[0] || (a[0] == b[0] && Less(a[1..], b[1..])))
  }

  lemma {:induction false} LessTransitive(a: string, b: string, c: string)
    ensures Less(a, b) && Less(b, c) ==> Less(a, c)
  {
    if a != [] && b != [] && c != [] {
      LessTransitive(a[1..], b[1..], c[1..]);
    }
  }

  lemma {:induction false} LessTotal(a: string, b: string)
    ensures !(Less(a, b) && Less(b, a))
    ensures Less(a, b) || Less(b, a) <==> a != b
  {
    if a != [] && b != [] {
      LessTotal(a[1..], b[1..]);
      assert a == [a[0]] + a[1..] && b == [b[0]] + b[1..];
    }
  }

  /** Where the strings first differ, the lesser one has the lesser character or has ended. */
  ghost predicate LessFrom(a: string, b: string, k: int) {
    && 0 <= k <= |a| && k < |b|
    && a[..k] == b[..k]
    && (k == |a| || a[k] < b[k])
  }

  lemma {:induction false} LessIff(a: string, b: string)
    ensures Less(a, b) <==> exists k :: LessFrom(a, b, k)
  {
    if a == [] {
      if b != [] {
        assert LessFrom(a, b, 0);
      }
    } else if b != [] {
      LessIff(a[1..], b[1..]);
      if k :| LessFrom(a, b, k) {
        if k == 0 {
          assert a[0] < b[0];
        } else {
          assert a[0] == a[..k][0] == b[..k][0] == b[0];
          assert a[1..][..k - 1] == a[..k][1..] && b[1..][..k - 1] == b[..k][1..];
          assert LessFrom(a[1..], b[1..], k - 1);
        }
      }
      if a[0] < b[0] {
        assert LessFrom(a, b, 0);
      } else if a[0] == b[0] && Less(a[1..], b[1..]) {
        var k :| LessFrom(a[1..], b[1..], k);
        assert a[..k + 1] == [a[0]] + a[1..][..k] && b[..k + 1] == [b[0]] + b[1..][..k];
        assert LessFrom(a, b, k + 1);
      }
    }
  }

  /** So a text comes before each of its own extensions. */
  lemma ExtensionIsMore(a: string, more: string)
    ensures Less(a, a + more) <==> more != []
    ensures !Less(a + more, a)
  {
    LessTotal(a, a);
    LessTotal(a, a + more);
    if more == [] {
      assert a + more == a;
    } else {
      assert (a + more)[..|a|] == a[..|a|];
      assert LessFrom(a, a + more, |a|);
      LessIff(a, a + more);
    }
  }

  function Digit(d: nat): char
    requires d < 10
  {
    ['0', '1', '2', '3', '4', '5', '6', '7', '8', '9'][d]
  }

  /** `%d` of a natural number. */
  function Itoa(n: nat): string {
    if n < 10 then [Digit(n)] else Itoa(n / 10) + [Digit(n % 10)]
  }

  /** Comparing strings that start with parts of equal length. */
  lemma {:induction false} LessByParts(a: string, x: string, b: string, y: string)
    requires |a| == |b|
    ensures Less(a + x, b + y) <==> Less(a, b) || (a == b && Less(x, y))
  {
    if a == [] {
      assert a + x == x && b + y == y;
    } else {
      assert (a + x)[1..] == a[1..] + x && (b + y)[1..] == b[1..] + y;
      LessByParts(a[1..], x, b[1..], y);
      assert a == [a[0]] + a[1..] && b == [b[0]] + b[1..];
    }
  }

  /** `%0wd` of a natural number that fits. */
  function Pad(n: nat, w: nat): (s: string)
    ensures |s| == w
  {
    if w == 0 then "" else Pad(n / 10, w - 1) + [Digit(n % 10)]
  }

  function Power10(w: nat): nat {
    if w == 0 then 1 else 10 * Power10(w - 1)
  }

  lemma DigitOrder(d: nat, e: nat)
    requires d < 10 && e < 10
    ensures Less([Digit(d)], [Digit(e)]) <==> d < e
    ensures Digit(d) == Digit(e) <==> d == e
  {
  }

  lemma ByDigits(n: nat, m: nat)
    ensures n < m <==> n / 10 < m / 10 || (n / 10 == m / 10 && n % 10 < m % 10)
  {
  }

  /** In a fixed width, the order of the texts is the order of the numbers. */
  lemma {:induction false} PadOrder(n: nat, m: nat, w: nat)
    requires n < Power10(w) && m < Power10(w)
    ensures Less(Pad(n, w), Pad(m, w)) <==> n < m
    ensures Pad(n, w) == Pad(m, w) <==> n == m
  {
    if w > 0 {
      PadOrder(n / 10, m / 10, w - 1);
      LessByParts(Pad(n / 10, w - 1), [Digit(n % 10)], Pad(m / 10, w - 1), [Digit(m % 10)]);
      DigitOrder(n % 10, m % 10);
      ByDigits(n, m);
      ByDigits(m, n);
      Sequences.Snoc(Pad(n / 10, w - 1), Digit(n % 10));
      Sequences.Snoc(Pad(m / 10, w - 1), Digit(m % 10));
    }
  }

  predicate IsDigit(c: char) {
    '0' <= c <= '9'
  }

  /** The number a run of digits spells, if it is one. */
  function Atoi(s: string): (n: int)
    ensures n >= -1
  {
    if s == [] then 0
    else
      var high := Atoi(s[..|s| - 1]);
      var c := s[|s| - 1];
      if high < 0 || !IsDigit(c) then -1 else 10 * high + (c as int - '0' as int)
  }

  lemma {:induction false} PadReadsBack(n: nat, w: nat)
    requires n < Power10(w)
    ensures Atoi(Pad(n, w)) == n
  {
    if w > 0 {
      PadReadsBack(n / 10, w - 1);
      assert Pad(n, w)[..w - 1] == Pad(n / 10, w - 1);
    }
  }

  /** And the text of a number reads as the number it spells. */
  lemma {:induction false} ReadsAsPad(s: string)
    requires Atoi(s) >= 0
    ensures Atoi(s) < Power10(|s|) && Pad(Atoi(s), |s|) == s
  {
    if s != [] {
      var high, c := s[..|s| - 1], s[|s| - 1];
      ReadsAsPad(high);
      var d: nat := c as int - '0' as int;
      TenTimes(Atoi(high), d);
      assert Digit(d) == c;
    }
  }

  lemma TenTimes(n: nat, d: nat)
    requires d < 10
    ensures (10 * n + d) / 10 == n && (10 * n + d) % 10 == d
  {
  }

  /** A number that takes exactly w digits is printed in them. */
  lemma {:induction false} ItoaIsPad(n: nat, w: nat)
    requires w > 0 && n < Power10(w) && (w > 1 ==> Power10(w - 1) <= n)
    ensures Itoa(n) == Pad(n, w)
  {
    if w > 1 {
      ItoaIsPad(n / 10, w - 1);
    } else {
      assert Pad(n, 1) == Pad(n / 10, 0) + [Digit(n % 10)];
    }
  }

  /** Digits only, and no leading zero but in "0" itself. */
  lemma {:induction false} ItoaShape(n: nat)
    ensures |Itoa(n)| > 0 && forall c :: c in Itoa(n) ==> '0' <= c <= '9'
    ensures Itoa(n)[0] == '0' <==> n == 0
  {
    if n >= 10 {
      ItoaShape(n / 10);
    }
  }

  lemma {:induction false} ItoaReadsBack(n: nat)
    ensures Atoi(Itoa(n)) == n
  {
    var most := Itoa(n)[..|Itoa(n)| - 1];
    if n < 10 {
      assert most == [];
    } else {
      assert most == Itoa(n / 10);
      ItoaReadsBack(n / 10);
    }
  }
}
