/**
 * The few pieces of Rust's `str` behaviour the core relies on:
 * `split` with a string pattern, `to_lowercase` on ASCII, decimal formatting.
 */
module Text {

  /** `sep` occurs somewhere in `s`. */
  predicate Contains(s: string, sep: string)
    requires |sep| > 0
    decreases |s|
  {
    |s| >= |sep| && (s[..|sep|] == sep || Contains(s[1..], sep))
  }

  /**
   * `s.split(sep)` collected into a sequence: the pieces between the
   * non-overlapping occurrences of `sep`, found from left to right.
   * There is always at least one piece.
   */
  function Split(s: string, sep: string): (r: seq<string>)
    requires |sep| > 0
    ensures |r| >= 1
    decreases |s|
  {
    if |s| < |sep| then [s]
    else if s[..|sep|] == sep then [[]] + Split(s[|sep|..], sep)
    else
      var rest := Split(s[1..], sep);
      [[s[0]] + rest[0]] + rest[1..]
  }

  /** Splitting yields a single piece exactly when the separator does not occur. */
  lemma {:induction false} SplitSingleIff(s: string, sep: string)
    requires |sep| > 0
    ensures |Split(s, sep)| == 1 <==> !Contains(s, sep)
    ensures !Contains(s, sep) ==> Split(s, sep) == [s]
    decreases |s|
  {
    if |s| < |sep| {
    } else if s[..|sep|] == sep {
    } else {
      SplitSingleIff(s[1..], sep);
      assert [s[0]] + s[1..] == s;
    }
  }

  /** Every occurrence of `sep` in `s` brings the last character of `sep` into `s`. */
  lemma {:induction false} ContainsHasLastChar(s: string, sep: string)
    requires |sep| > 0
    requires Contains(s, sep)
    ensures sep[|sep| - 1] in s
    decreases |s|
  {
    if s[..|sep|] == sep {
      assert s[|sep| - 1] == sep[|sep| - 1];
    } else {
      ContainsHasLastChar(s[1..], sep);
    }
  }

  /** The last character of `sep` appears nowhere else in `sep` (true of "Point(", ")" and " "). */
  predicate LastCharOnlyAtEnd(sep: string)
    requires |sep| > 0
  {
    sep[|sep| - 1] !in sep[..|sep| - 1]
  }

  /**
   * If the piece `a` cannot hide an occurrence of `sep`, then splitting
   * `a + sep + b` gives `a` followed by the pieces of `b`.
   */
  lemma {:induction false} SplitAfterPiece(a: string, sep: string, b: string)
    requires |sep| > 0 && LastCharOnlyAtEnd(sep)
    requires sep[|sep| - 1] !in a
    ensures Split(a + sep + b, sep) == [a] + Split(b, sep)
    decreases |a|
  {
    var s := a + sep + b;
    if a == [] {
      assert s[..|sep|] == sep;
      assert s[|sep|..] == b;
    } else {
      var k := |sep| - 1;
      assert s[k] != sep[k] by {
        if k < |a| {
          assert s[k] == a[k];
        } else {
          assert s[k] == sep[k - |a|];
          assert sep[k - |a|] in sep[..k];
        }
      }
      assert s[..|sep|] != sep by {
        assert s[..|sep|][k] == s[k];
      }
      SplitAfterPiece(a[1..], sep, b);
      assert s[1..] == a[1..] + sep + b;
      assert [a[0]] + a[1..] == a;
    }
  }

  /**
   * Appending one character to a text split at a one-character separator:
   * the separator opens a new, empty last piece; any other character
   * extends the last piece.
   */
  lemma SplitOneChar(c: char, d: char)
    ensures Split([d], [c]) == if d == c then [[], []] else [[d]]
  {
    var t: string := [d];
    var sep: string := [c];
    assert t[1..] == [] && t[..1] == t && |sep| == 1;
    assert Split([], sep) == [[]];
    if d == c {
      assert Split(t, sep) == [[]] + Split(t[1..], sep);
    } else {
      assert t[..1] != sep;
      assert Split(t, sep) == [[t[0]] + Split(t[1..], sep)[0]] + Split(t[1..], sep)[1..];
      assert [t[0]] + [] == t;
    }
  }

  lemma {:induction false} SplitSnoc(s: string, c: char, d: char)
    ensures var p := Split(s, [c]);
            Split(s + [d], [c]) == if d == c then p + [[]] else p[..|p| - 1] + [p[|p| - 1] + [d]]
    decreases |s|
  {
    var t := s + [d];
    if s == [] {
      assert t == [d];
      SplitOneChar(c, d);
      assert Split([], [c]) == [[]];
    } else {
      SplitSnocStep(s, c, d);
    }
  }

  lemma {:induction false} SplitSnocStep(s: string, c: char, d: char)
    requires s != []
    ensures var p := Split(s, [c]);
            Split(s + [d], [c]) == if d == c then p + [[]] else p[..|p| - 1] + [p[|p| - 1] + [d]]
    decreases |s|, 1
  {
    if s[0] == c {
      SplitSnocAtSep(s, c, d);
    } else {
      SplitSnocAtOther(s, c, d);
    }
  }

  /** `SplitSnocStep` when `s` starts with the separator. */
  lemma {:induction false} SplitSnocAtSep(s: string, c: char, d: char)
    requires s != [] && s[0] == c
    ensures var p := Split(s, [c]);
            Split(s + [d], [c]) == if d == c then p + [[]] else p[..|p| - 1] + [p[|p| - 1] + [d]]
    decreases |s|, 0
  {
    var t := s + [d];
    assert t[..1] == [c] && t[1..] == s[1..] + [d];
    assert s[..1] == [c];
    SplitSnoc(s[1..], c, d);
    var p, r := Split(s, [c]), Split(s[1..], [c]);
    assert p == [[]] + r;
    assert Split(t, [c]) == [[]] + Split(t[1..], [c]);
    if d != c {
      assert p[..|p| - 1] == [[]] + r[..|r| - 1];
    }
  }

  /** `SplitSnocStep` when `s` starts with another character. */
  lemma {:induction false} SplitSnocAtOther(s: string, c: char, d: char)
    requires s != [] && s[0] != c
    ensures var p := Split(s, [c]);
            Split(s + [d], [c]) == if d == c then p + [[]] else p[..|p| - 1] + [p[|p| - 1] + [d]]
    decreases |s|, 0
  {
    var t := s + [d];
    assert t[..1] == [s[0]] && t[1..] == s[1..] + [d];
    assert s[..1] != [c] && t[..1] != [c];
    SplitSnoc(s[1..], c, d);
    var p, r, r' := Split(s, [c]), Split(s[1..], [c]), Split(t[1..], [c]);
    assert p == [[s[0]] + r[0]] + r[1..];
    assert Split(t, [c]) == [[s[0]] + r'[0]] + r'[1..];
    if d != c {
      ExtendLastPiece(s[0], r, d);
    } else {
      AddEmptyPiece(s[0], r);
    }
  }

  /** Extending the last piece commutes with prefixing the first one. */
  lemma ExtendLastPiece(x: char, r: seq<string>, d: char)
    requires |r| >= 1
    ensures var r' := r[..|r| - 1] + [r[|r| - 1] + [d]];
            var p := [[x] + r[0]] + r[1..];
            [[x] + r'[0]] + r'[1..] == p[..|p| - 1] + [p[|p| - 1] + [d]]
  {
    var n := |r|;
    var r' := r[..n - 1] + [r[n - 1] + [d]];
    if n == 1 {
      assert r' == [r[0] + [d]];
      assert [x] + (r[0] + [d]) == ([x] + r[0]) + [d];
    } else {
      assert r'[0] == r[0];
      assert r'[1..] == r[1..n - 1] + [r[n - 1] + [d]];
    }
  }

  /** Adding an empty last piece commutes with prefixing the first one. */
  lemma AddEmptyPiece(x: char, r: seq<string>)
    requires |r| >= 1
    ensures [[x] + (r + [[]])[0]] + (r + [[]])[1..] == ([[x] + r[0]] + r[1..]) + [[]]
  {
    assert (r + [[]])[1..] == r[1..] + [[]];
  }

  /**
   * ASCII lower-casing of one character. Full Unicode lower-casing differs
   * only on characters none of whose lower-case forms is a letter of "true"
   * or "false", so comparing with those two words gives the same answer.
   */
  function LowerChar(c: char): (r: char)
    ensures 'A' <= c <= 'Z' ==> 'a' <= r <= 'z'
    ensures !('A' <= c <= 'Z') ==> r == c
  {
    if 'A' <= c <= 'Z' then (c as int - 'A' as int + 'a' as int) as char else c
  }

  function Lower(s: string): (r: string)
    ensures |r| == |s|
    ensures forall i :: 0 <= i < |s| ==> r[i] == LowerChar(s[i])
  {
    if s == [] then [] else [LowerChar(s[0])] + Lower(s[1..])
  }

  function DigitChar(d: nat): (c: char)
    requires d < 10
    ensures '0' <= c <= '9'
  {
    ('0' as int + d) as char
  }

  /** Rust's `Display` of an unsigned integer: its decimal digits, without leading zeros. */
  function NatToDecimal(n: nat): (r: string)
    ensures |r| >= 1
    ensures forall i :: 0 <= i < |r| ==> '0' <= r[i] <= '9'
    ensures n > 0 ==> r[0] != '0'
  {
    if n < 10 then [DigitChar(n)] else NatToDecimal(n / 10) + [DigitChar(n % 10)]
  }

  function DecimalValue(s: string): int
  {
    if s == [] then 0 else 10 * DecimalValue(s[..|s| - 1]) + (s[|s| - 1] as int - '0' as int)
  }

  /** Reading the decimal digits back gives the number: the formatting loses nothing. */
  lemma {:induction false} DecimalRoundTrip(n: nat)
    ensures DecimalValue(NatToDecimal(n)) == n
  {
    if n >= 10 {
      DecimalRoundTrip(n / 10);
      var s := NatToDecimal(n);
      assert s[..|s| - 1] == NatToDecimal(n / 10);
    }
  }
}
