/** The three Python `str` operations the settings validators rely on:
    `s.split(",")`, `s.strip()` and `",".join(pieces)` (the inverse of the
    split, used only to state its round trip). */
module Text {

  /** The characters `str.isspace()` accepts, which is what `str.strip()`
      with no argument removes from both ends. */
  predicate IsSpace(c: char) {
    c == '\t' || c == '\n' || c == '\U{0B}' || c == '\U{0C}' || c == '\r'
    || c == '\U{1C}' || c == '\U{1D}' || c == '\U{1E}' || c == '\U{1F}'
    || c == ' ' || c == '\U{85}' || c == '\U{A0}' || c == '\U{1680}'
    || ('\U{2000}' <= c <= '\U{200A}')
    || c == '\U{2028}' || c == '\U{2029}' || c == '\U{202F}' || c == '\U{205F}'
    || c == '\U{3000}'
  }

  /** Number of occurrences of the separator `sep` in `s`. */
  function Occurrences(s: string, sep: char): (n: nat)
    ensures n <= |s|
    ensures n == 0 <==> sep !in s
  {
    if |s| == 0 then 0
    else (if s[0] == sep then 1 else 0) + Occurrences(s[1..], sep)
  }

  /** `s.split(",")`: the maximal comma-free pieces of `s`, in order; an
      empty string gives one empty piece, and every comma starts a new one. */
  function SplitOnComma(s: string): (pieces: seq<string>)
    ensures |pieces| == Occurrences(s, ',') + 1
    ensures forall i :: 0 <= i < |pieces| ==> ',' !in pieces[i]
  {
    if |s| == 0 then [""]
    else
      var rest := SplitOnComma(s[1..]);
      if s[0] == ',' then [""] + rest
      else [[s[0]] + rest[0]] + rest[1..]
  }

  /** `",".join(pieces)`. */
  function JoinWithComma(pieces: seq<string>): string {
    if |pieces| == 0 then ""
    else if |pieces| == 1 then pieces[0]
    else pieces[0] + "," + JoinWithComma(pieces[1..])
  }

  /** Joining the pieces of a split gives the original string back. */
  lemma {:induction false} JoinSplit(s: string)
    ensures JoinWithComma(SplitOnComma(s)) == s
  {
    if |s| > 0 {
      var rest := SplitOnComma(s[1..]);
      JoinSplit(s[1..]);
      if s[0] == ',' {
        assert SplitOnComma(s) == [""] + rest;
        assert ([""] + rest)[1..] == rest;
        assert JoinWithComma(SplitOnComma(s)) == "" + "," + JoinWithComma(rest);
      } else {
        var head := [s[0]] + rest[0];
        assert SplitOnComma(s) == [head] + rest[1..];
        assert ([head] + rest[1..])[1..] == rest[1..];
        if |rest| == 1 {
          assert JoinWithComma(rest) == rest[0];
        } else {
          assert JoinWithComma(rest) == rest[0] + "," + JoinWithComma(rest[1..]);
        }
        assert s == [s[0]] + s[1..];
      }
    }
  }

  /** A comma-free string splits into itself. */
  lemma {:induction false} SplitWithoutComma(a: string)
    requires ',' !in a
    ensures SplitOnComma(a) == [a]
  {
    if |a| > 0 {
      assert ',' !in a[1..] by {
        forall i | 0 <= i < |a[1..]| ensures a[1..][i] != ',' { assert a[1..][i] == a[i + 1]; }
      }
      SplitWithoutComma(a[1..]);
      assert a == [a[0]] + a[1..];
    }
  }

  /** A comma-free piece followed by a comma splits off as one piece. */
  lemma {:induction false} SplitAfterPiece(a: string, t: string)
    requires ',' !in a
    ensures SplitOnComma(a + "," + t) == [a] + SplitOnComma(t)
  {
    var s := a + "," + t;
    if |a| == 0 {
      assert s == "," + t;
      assert s[1..] == t;
    } else {
      assert ',' !in a[1..] by {
        forall i | 0 <= i < |a[1..]| ensures a[1..][i] != ',' { assert a[1..][i] == a[i + 1]; }
      }
      assert s[1..] == a[1..] + "," + t;
      SplitAfterPiece(a[1..], t);
      var rest := SplitOnComma(s[1..]);
      assert rest == [a[1..]] + SplitOnComma(t);
      assert s[0] == a[0] && a[0] != ',';
      assert SplitOnComma(s) == [[s[0]] + rest[0]] + rest[1..];
      assert rest[0] == a[1..] && rest[1..] == SplitOnComma(t);
      assert [a[0]] + a[1..] == a;
    }
  }

  /** Splitting a join of comma-free pieces gives the pieces back. */
  lemma {:induction false} SplitJoin(pieces: seq<string>)
    requires |pieces| > 0
    requires forall i :: 0 <= i < |pieces| ==> ',' !in pieces[i]
    ensures SplitOnComma(JoinWithComma(pieces)) == pieces
  {
    if |pieces| == 1 {
      SplitWithoutComma(pieces[0]);
    } else {
      SplitJoin(pieces[1..]);
      SplitAfterPiece(pieces[0], JoinWithComma(pieces[1..]));
      assert pieces == [pieces[0]] + pieces[1..];
    }
  }

  /** Length of the run of whitespace at the start of `s`. */
  function LeadingSpaces(s: string): (n: nat)
    ensures n <= |s|
    ensures forall k :: 0 <= k < n ==> IsSpace(s[k])
    ensures n == |s| || !IsSpace(s[n])
  {
    if |s| == 0 || !IsSpace(s[0]) then 0 else 1 + LeadingSpaces(s[1..])
  }

  /** Length of the run of whitespace at the end of `s`. */
  function TrailingSpaces(s: string): (n: nat)
    ensures n <= |s|
    ensures forall k :: |s| - n <= k < |s| ==> IsSpace(s[k])
    ensures n == |s| || !IsSpace(s[|s| - n - 1])
  {
    if |s| == 0 || !IsSpace(s[|s| - 1]) then 0 else 1 + TrailingSpaces(s[..|s| - 1])
  }

  /** `s.strip()`: the part of `s` between its leading and its trailing run
      of whitespace; all-whitespace input gives the empty string. */
  function Strip(s: string): (r: string)
    ensures LeadingSpaces(s) + |r| <= |s|
    ensures r == s[LeadingSpaces(s)..LeadingSpaces(s) + |r|]
    ensures forall k :: LeadingSpaces(s) + |r| <= k < |s| ==> IsSpace(s[k])
    ensures |r| == 0 || (!IsSpace(r[0]) && !IsSpace(r[|r| - 1]))
  {
    var t := s[LeadingSpaces(s)..];
    t[..|t| - TrailingSpaces(t)]
  }

  /** A string with no whitespace at either end is left alone by `strip`. */
  lemma StripUntrimmed(s: string)
    requires |s| == 0 || (!IsSpace(s[0]) && !IsSpace(s[|s| - 1]))
    ensures Strip(s) == s
  {
    assert LeadingSpaces(s) == 0;
    assert s[0..] == s;
    assert TrailingSpaces(s) == 0;
  }

  /** Stripping twice is the same as stripping once. */
  lemma StripIdempotent(s: string)
    ensures Strip(Strip(s)) == Strip(s)
  {
    StripUntrimmed(Strip(s));
  }

  /** Stripping never introduces a comma: a comma-free piece stays comma-free. */
  lemma StripKeepsCommaFree(s: string)
    requires ',' !in s
    ensures ',' !in Strip(s)
  {
    var r := Strip(s);
    var n := LeadingSpaces(s);
    forall i | 0 <= i < |r| ensures r[i] != ',' {
      assert r[i] == s[n + i];
    }
  }
}
