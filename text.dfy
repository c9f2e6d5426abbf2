/** Strings as the admin console's JavaScript treats them: ASCII lower-casing,
    substring search, decimal rendering of integers, and `String.prototype.split`
    on a one-character separator. */
module Text {

  /** `toLowerCase` on one character; only ASCII letters are folded. */
  function LowerChar(c: char): char
  {
    if 'A' <= c <= 'Z' then (c as int + 32) as char else c
  }

  function Lower(s: string): (r: string)
    ensures |r| == |s|
    ensures forall i :: 0 <= i < |s| ==> r[i] == LowerChar(s[i])
  {
    if s == [] then [] else [LowerChar(s[0])] + Lower(s[1..])
  }

  /** `sub` occurs in `s` starting at index `i`. */
  predicate OccursAt(s: string, sub: string, i: int)
  {
    0 <= i && i + |sub| <= |s| && s[i..i + |sub|] == sub
  }

  /** `String.prototype.includes`: scan the start positions left to right. */
  predicate Includes(s: string, sub: string)
    decreases |s|
  {
    sub <= s || (s != [] && Includes(s[1..], sub))
  }

  /** `String.prototype.endsWith`. */
  predicate EndsWith(s: string, suffix: string)
  {
    |suffix| <= |s| && s[|s| - |suffix|..] == suffix
  }

  /** `sub` occurs somewhere in `s`. */
  ghost predicate Occurs(s: string, sub: string)
  {
    exists i :: OccursAt(s, sub, i)
  }

  /** A slice of the tail is the slice of the string one position on. */
  lemma SliceOfTail(s: string, i: int, n: int)
    requires 0 <= i && 0 <= n && i + n < |s|
    ensures s[1..][i..i + n] == s[i + 1..i + 1 + n]
  {
    var a := s[1..][i..i + n];
    var b := s[i + 1..i + 1 + n];
    forall k | 0 <= k < n ensures a[k] == b[k] {
      assert s[1..][i + k] == s[i + 1 + k];
    }
  }

  /** The scan finds `sub` exactly when `sub` occurs somewhere in `s`. */
  lemma {:induction false} IncludesIffOccurs(s: string, sub: string)
    ensures Includes(s, sub) <==> Occurs(s, sub)
    decreases |s|
  {
    if s != [] {
      IncludesIffOccurs(s[1..], sub);
    }
    assert Includes(s, sub) ==> Occurs(s, sub) by {
      if Includes(s, sub) {
        if sub <= s {
          assert OccursAt(s, sub, 0);
        } else {
          var i :| OccursAt(s[1..], sub, i);
          SliceOfTail(s, i, |sub|);
          assert OccursAt(s, sub, i + 1);
        }
      }
    }
    assert Occurs(s, sub) ==> Includes(s, sub) by {
      if Occurs(s, sub) {
        var i :| OccursAt(s, sub, i);
        if i == 0 {
          assert sub <= s by {
            assert sub == s[..|sub|];
          }
        } else {
          SliceOfTail(s, i - 1, |sub|);
          assert OccursAt(s[1..], sub, i - 1);
        }
      }
    }
  }

  // ---------------------------------------------------------------------
  // Decimal rendering of numbers (template literals and `String(n)`)
  // ---------------------------------------------------------------------

  predicate IsDigit(c: char)
  {
    '0' <= c <= '9'
  }

  predicate AllDigits(s: string)
  {
    forall i :: 0 <= i < |s| ==> IsDigit(s[i])
  }

  function DigitChar(d: nat): (c: char)
    requires d < 10
    ensures IsDigit(c) && c as int - '0' as int == d
  {
    ('0' as int + d) as char
  }

  /** The decimal digits of `n`, most significant first, without leading zeros. */
  function NatText(n: nat): (r: string)
    ensures r != [] && AllDigits(r)
    decreases n
  {
    if n < 10 then [DigitChar(n)] else NatText(n / 10) + [DigitChar(n % 10)]
  }

  /** The value of a string of decimal digits (the empty string reads as 0). */
  function ParseNat(s: string): nat
    requires AllDigits(s)
    decreases |s|
  {
    if s == [] then 0 else 10 * ParseNat(s[..|s| - 1]) + (s[|s| - 1] as int - '0' as int)
  }

  /** Rendering a natural number and reading it back gives the number again. */
  lemma {:induction false} ParseNatText(n: nat)
    ensures ParseNat(NatText(n)) == n
    decreases n
  {
    var t := NatText(n);
    if n >= 10 {
      ParseNatText(n / 10);
      assert t[..|t| - 1] == NatText(n / 10);
    }
  }

  /** `${n}` for an integer `n`. */
  function IntText(n: int): (r: string)
    ensures r != []
    ensures forall i :: 0 <= i < |r| ==> IsDigit(r[i]) || r[i] == '-'
    ensures n >= 0 ==> AllDigits(r) && ParseNat(r) == n
  {
    if n < 0 then "-" + NatText(-n)
    else ParseNatText(n); NatText(n)
  }

  // ---------------------------------------------------------------------
  // String.prototype.split on a one-character separator, and its inverse
  // ---------------------------------------------------------------------

  /** `s.split(c)`: the pieces between occurrences of `c`; never empty. */
  function Split(s: string, c: char): (r: seq<string>)
    ensures |r| >= 1
    decreases |s|
  {
    if s == [] then [""]
    else
      var rest := Split(s[1..], c);
      if s[0] == c then [""] + rest else [[s[0]] + rest[0]] + rest[1..]
  }

  /** `pieces.join(c)`. */
  function Join(pieces: seq<string>, c: char): string
    requires |pieces| >= 1
    decreases |pieces|
  {
    if |pieces| == 1 then pieces[0] else pieces[0] + [c] + Join(pieces[1..], c)
  }

  /** No piece of a split contains the separator. */
  lemma {:induction false} SplitPiecesFree(s: string, c: char)
    ensures forall i :: 0 <= i < |Split(s, c)| ==> c !in Split(s, c)[i]
    decreases |s|
  {
    if s != [] {
      SplitPiecesFree(s[1..], c);
      var rest := Split(s[1..], c);
      if s[0] != c {
        assert c !in [s[0]] + rest[0];
      }
    }
  }

  /** Joining after an empty first piece starts with the separator. */
  lemma JoinAfterEmpty(rest: seq<string>, c: char)
    requires |rest| >= 1
    ensures Join([""] + rest, c) == [c] + Join(rest, c)
  {
    assert ([""] + rest)[1..] == rest;
  }

  /** Prefixing the first piece prefixes the join. */
  lemma JoinExtendFirst(h: string, rest: seq<string>, c: char)
    requires |rest| >= 1
    ensures Join([h + rest[0]] + rest[1..], c) == h + Join(rest, c)
  {
    var r := [h + rest[0]] + rest[1..];
    if |rest| > 1 {
      assert r[1..] == rest[1..];
      assert h + rest[0] + [c] + Join(rest[1..], c) == h + (rest[0] + [c] + Join(rest[1..], c));
    }
  }

  /** Joining the pieces of a split with the same separator restores the string. */
  lemma {:induction false} JoinSplit(s: string, c: char)
    ensures Join(Split(s, c), c) == s
    decreases |s|
  {
    if s != [] {
      JoinSplit(s[1..], c);
      var rest := Split(s[1..], c);
      if s[0] == c {
        JoinAfterEmpty(rest, c);
      } else {
        JoinExtendFirst([s[0]], rest, c);
      }
      assert [s[0]] + s[1..] == s;
    }
  }

  /** Splitting a string free of the separator yields that string alone. */
  lemma {:induction false} SplitFree(s: string, c: char)
    requires c !in s
    ensures Split(s, c) == [s]
    decreases |s|
  {
    if s != [] {
      assert c !in s[1..];
      SplitFree(s[1..], c);
      assert [s[0]] + s[1..] == s;
    }
  }

  /** The first separator cuts off the first piece. */
  lemma {:induction false} SplitAfterFirst(a: string, c: char, b: string)
    requires c !in a
    ensures Split(a + [c] + b, c) == [a] + Split(b, c)
    decreases |a|
  {
    if a == [] {
      assert a + [c] + b == [c] + b;
      assert ([c] + b)[1..] == b;
    } else {
      assert (a + [c] + b)[1..] == a[1..] + [c] + b;
      SplitAfterFirst(a[1..], c, b);
      assert [a[0]] + a[1..] == a;
    }
  }

  /** Splitting the join of separator-free pieces gives the pieces back. */
  lemma {:induction false} SplitJoin(pieces: seq<string>, c: char)
    requires |pieces| >= 1
    requires forall i :: 0 <= i < |pieces| ==> c !in pieces[i]
    ensures Split(Join(pieces, c), c) == pieces
    decreases |pieces|
  {
    if |pieces| == 1 {
      SplitFree(pieces[0], c);
    } else {
      SplitJoin(pieces[1..], c);
      SplitAfterFirst(pieces[0], c, Join(pieces[1..], c));
      assert [pieces[0]] + pieces[1..] == pieces;
    }
  }

  /** The text before the first `c`, and the text after it if there is one. */
  function CutAt(s: string, c: char): (r: (string, string))
    ensures c !in s ==> r == (s, "")
    decreases |s|
  {
    if s == [] then ("", "")
    else if s[0] == c then ("", s[1..])
    else
      var t := CutAt(s[1..], c);
      assert [s[0]] + s[1..] == s;
      ([s[0]] + t.0, t.1)
  }

  /** Cutting at the first separator gives back the two sides. */
  lemma {:induction false} CutAtFirst(a: string, c: char, b: string)
    requires c !in a
    ensures CutAt(a + [c] + b, c) == (a, b)
    decreases |a|
  {
    if a == [] {
      assert a + [c] + b == [c] + b;
      assert ([c] + b)[1..] == b;
    } else {
      assert (a + [c] + b)[1..] == a[1..] + [c] + b;
      CutAtFirst(a[1..], c, b);
      assert [a[0]] + a[1..] == a;
    }
  }
}
