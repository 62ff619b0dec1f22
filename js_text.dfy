/**
 * Lengths as the pages' JavaScript sees them. A JavaScript string is a
 * sequence of UTF-16 code units: `.length` and `substring` count a
 * character outside the Basic Multilingual Plane (an emoji, say) as two,
 * where a Dafny `string` counts it as one.
 */
module JsText {

  /**
   * The number of UTF-16 code units that encode `c`: two (a surrogate pair)
   * for a character outside the Basic Multilingual Plane, so a string of one
   * emoji such as U+1F600 has `.length` 2.
   */
  function CodeUnits(c: char): (n: nat)
    ensures n == 1 || n == 2
    ensures n == 1 <==> c as int < 0x1_0000
  {
    if c as int < 0x1_0000 then 1 else 2
  }

  /** String.prototype.length. */
  function Utf16Length(s: string): (n: nat)
    ensures |s| <= n <= 2 * |s|
  {
    if s == [] then 0 else CodeUnits(s[0]) + Utf16Length(s[1..])
  }

  /** Every character of `s` is in the Basic Multilingual Plane. */
  predicate InBmp(s: string)
  {
    forall i :: 0 <= i < |s| ==> s[i] as int < 0x1_0000
  }

  /** On text in the Basic Multilingual Plane, JavaScript's length is the character count. */
  lemma {:induction false} BmpLengthAgrees(s: string)
    requires InBmp(s)
    ensures Utf16Length(s) == |s|
  {
    if s != [] {
      BmpTail(s);
      BmpLengthAgrees(s[1..]);
    }
  }

  /** Dropping the first character keeps text in the plane. */
  lemma BmpTail(s: string)
    requires InBmp(s) && s != []
    ensures InBmp(s[1..]) && CodeUnits(s[0]) == 1
  {
    forall i | 0 <= i < |s[1..]| ensures s[1..][i] as int < 0x1_0000 {
      assert s[1..][i] == s[i + 1];
    }
  }

  /** Code units add up over concatenation. */
  lemma {:induction false} Utf16LengthConcat(a: string, b: string)
    ensures Utf16Length(a + b) == Utf16Length(a) + Utf16Length(b)
  {
    if a != [] {
      assert (a + b)[0] == a[0] && (a + b)[1..] == a[1..] + b;
      Utf16LengthConcat(a[1..], b);
    } else {
      assert a + b == b;
    }
  }

  /**
   * substring(0, n) on whole characters: the longest prefix of `s` that fits
   * in `n` code units. It is all of `s` when `s` fits, and otherwise stops
   * where the next character would not fit, so it is at most one unit short.
   */
  function Utf16Prefix(s: string, n: nat): (r: string)
    ensures r <= s
    ensures Utf16Length(r) <= n
    ensures Utf16Length(s) <= n ==> r == s
    ensures |r| < |s| ==> n < Utf16Length(r) + CodeUnits(s[|r|])
    ensures n < Utf16Length(s) ==> |r| < |s| && n - 1 <= Utf16Length(r)
  {
    if s == [] || n < CodeUnits(s[0]) then []
    else
      var rest := Utf16Prefix(s[1..], n - CodeUnits(s[0]));
      assert ([s[0]] + rest)[1..] == rest;
      [s[0]] + rest
  }

  /** On text in the Basic Multilingual Plane, the prefix is the first n characters. */
  lemma {:induction false} Utf16PrefixOfBmp(s: string, n: nat)
    requires InBmp(s)
    ensures Utf16Prefix(s, n) == s[..if |s| < n then |s| else n]
  {
    if s == [] {
    } else if n == 0 {
      assert Utf16Prefix(s, n) == [];
    } else {
      BmpTail(s);
      var tail := s[1..];
      Utf16PrefixOfBmp(tail, n - 1);
      var k := if |tail| < n - 1 then |tail| else n - 1;
      assert Utf16Prefix(s, n) == [s[0]] + tail[..k];
      assert [s[0]] + tail[..k] == s[..k + 1];
    }
  }
}
