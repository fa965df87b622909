/** The string primitives the matcher uses, with JavaScript's meaning:
    the regular-expression classes `\s` and `\w`, `toLowerCase`, `trim`,
    `split(/\s+/)`, the two `replace` calls and `includes`. */
module Text {
  import opened Common

  /** `\s`: JavaScript's WhiteSpace and LineTerminator characters. */
  predicate IsSpace(c: char) { IsJsSpace(c) }

  /** `\w`: ASCII letters, digits and underscore. */
  predicate IsWordChar(c: char)
  {
    'a' <= c <= 'z' || 'A' <= c <= 'Z' || '0' <= c <= '9' || c == '_'
  }

  predicate NoSpace(s: string) { forall i :: 0 <= i < |s| ==> !IsSpace(s[i]) }

  predicate AllWordChars(s: string) { forall i :: 0 <= i < |s| ==> IsWordChar(s[i]) }

  predicate IsBlank(s: string) { forall i :: 0 <= i < |s| ==> IsSpace(s[i]) }

  // ---------------------------------------------------------------
  // toLowerCase
  // ---------------------------------------------------------------

  function LowerChar(c: char): char
  {
    if 'A' <= c <= 'Z' then (c as int - 'A' as int + 'a' as int) as char else c
  }

  /** `toLowerCase()` on the ASCII range. */
  function Lower(s: string): (r: string)
    ensures |r| == |s|
  {
    if |s| == 0 then "" else [LowerChar(s[0])] + Lower(s[1..])
  }

  lemma {:induction false} LowerChars(s: string)
    ensures forall i :: 0 <= i < |s| ==> Lower(s)[i] == LowerChar(s[i])
  {
    if |s| > 0 {
      LowerChars(s[1..]);
    }
  }

  /** Lower-casing twice is lower-casing once, and leaves no capital letter. */
  lemma {:induction false} LowerIdempotent(s: string)
    ensures Lower(Lower(s)) == Lower(s)
    ensures forall i :: 0 <= i < |s| ==> !('A' <= Lower(s)[i] <= 'Z')
  {
    LowerChars(s);
    LowerChars(Lower(s));
  }

  // ---------------------------------------------------------------
  // trim
  // ---------------------------------------------------------------

  function TrimEnd(s: string): (r: string)
    ensures |r| <= |s| && r == s[..|r|]
    ensures |r| > 0 ==> !IsSpace(r[|r| - 1])
    ensures forall i :: |r| <= i < |s| ==> IsSpace(s[i])
  {
    if |s| > 0 && IsSpace(s[|s| - 1]) then TrimEnd(s[..|s| - 1]) else s
  }

  lemma TrimBounds(s: string)
    ensures var r := TrimEnd(SkipSpace(s));
      && (|r| == 0 || (!IsSpace(r[0]) && !IsSpace(r[|r| - 1])))
      && (exists i, j :: 0 <= i <= j <= |s| && r == s[i..j] && IsBlank(s[..i]) && IsBlank(s[j..]))
      && (|r| == 0 <==> IsBlank(s))
  {
    var a := SkipSpace(s);
    var r := TrimEnd(a);
    var i := |s| - |a|;
    assert r == s[i..i + |r|];
    assert IsBlank(s[..i]);
    assert IsBlank(s[i + |r|..]) by {
      forall k | i + |r| <= k < |s| ensures IsSpace(s[k]) {
        assert s[k] == a[k - i];
      }
    }
    if |r| == 0 {
      assert |a| == 0;
    } else {
      assert !IsSpace(s[i]);
    }
  }

  /** `trim()`: drops white space at both ends and keeps the middle intact. */
  function Trim(s: string): (r: string)
    ensures |r| == 0 || (!IsSpace(r[0]) && !IsSpace(r[|r| - 1]))
    ensures exists i, j :: (0 <= i <= j <= |s| && r == s[i..j]
      && IsBlank(s[..i]) && IsBlank(s[j..]))
    ensures |r| == 0 <==> IsBlank(s)
  {
    TrimBounds(s);
    TrimEnd(SkipSpace(s))
  }

  // ---------------------------------------------------------------
  // split(/\s+/)
  // ---------------------------------------------------------------

  /** `s.split(/\s+/)`: the pieces between maximal runs of white space.  A
      leading or trailing run yields an empty first or last piece, and the
      empty string splits into one empty piece.  Read left to right: a
      non-space character joins the first piece of the rest, and a space
      starts a new piece unless the next character continues the run. */
  function SplitWs(s: string): (parts: seq<string>)
    ensures |parts| >= 1
    ensures forall i :: 0 <= i < |parts| ==> NoSpace(parts[i])
  {
    if |s| == 0 then [""]
    else
      var rest := SplitWs(s[1..]);
      if !IsSpace(s[0]) then [[s[0]] + rest[0]] + rest[1..]
      else if |s| > 1 && IsSpace(s[1]) then rest
      else [""] + rest
  }

  /** A text without white space is a single piece. */
  lemma {:induction false} SplitWsOfWord(s: string)
    requires NoSpace(s)
    ensures SplitWs(s) == [s]
  {
    if |s| > 0 {
      SplitWsOfWord(s[1..]);
      assert [s[0]] + s[1..] == s;
    }
  }

  /** Two space-free texts joined by one space split back into the two. */
  lemma {:induction false} SplitWsTwo(a: string, b: string)
    requires NoSpace(a) && NoSpace(b) && |b| > 0
    ensures SplitWs(a + [' '] + b) == [a, b]
  {
    var s := a + [' '] + b;
    if |a| == 0 {
      assert s[1..] == b;
      SplitWsOfWord(b);
    } else {
      assert s[1..] == a[1..] + [' '] + b;
      SplitWsTwo(a[1..], b);
      assert [a[0]] + a[1..] == a;
    }
  }

  /** `parts.join(' ')`. */
  function JoinWs(parts: seq<string>): string
  {
    if |parts| == 0 then ""
    else if |parts| == 1 then parts[0]
    else parts[0] + " " + JoinWs(parts[1..])
  }

  /** The text with every maximal run of white space replaced by one
      space. */
  function CollapseWs(s: string): (r: string)
    ensures |r| <= |s|
  {
    if |s| == 0 then ""
    else if !IsSpace(s[0]) then [s[0]] + CollapseWs(s[1..])
    else if |s| > 1 && IsSpace(s[1]) then CollapseWs(s[1..])
    else " " + CollapseWs(s[1..])
  }

  lemma JoinWsHead(c: char, x: string, ys: seq<string>)
    ensures JoinWs([[c] + x] + ys) == [c] + JoinWs([x] + ys)
  {
    var a, b := [[c] + x] + ys, [x] + ys;
    assert a[1..] == ys && b[1..] == ys;
    if |ys| > 0 {
      var t := JoinWs(ys);
      assert JoinWs(a) == ([c] + x) + " " + t;
      assert JoinWs(b) == x + " " + t;
    }
  }

  /** The pieces, joined again by single spaces, give back the text with
      each white-space run collapsed to one space: the text is cut at the
      runs and nowhere else. */
  lemma {:induction false} SplitWsJoins(s: string)
    ensures JoinWs(SplitWs(s)) == CollapseWs(s)
  {
    if |s| > 0 {
      var rest := SplitWs(s[1..]);
      SplitWsJoins(s[1..]);
      if !IsSpace(s[0]) {
        JoinWsHead(s[0], rest[0], rest[1..]);
        assert [rest[0]] + rest[1..] == rest;
      } else if !(|s| > 1 && IsSpace(s[1])) {
        var parts := [""] + rest;
        assert parts[1..] == rest;
      }
    }
  }

  function Concat(parts: seq<string>): string
  {
    if |parts| == 0 then "" else parts[0] + Concat(parts[1..])
  }

  function DropSpaces(s: string): (r: string)
    ensures NoSpace(r)
  {
    if |s| == 0 then ""
    else (if IsSpace(s[0]) then "" else [s[0]]) + DropSpaces(s[1..])
  }

  /** Splitting loses exactly the white space: gluing the pieces back
      together gives the string with every white-space character removed. */
  lemma {:induction false} SplitLosesOnlySpace(s: string)
    ensures Concat(SplitWs(s)) == DropSpaces(s)
  {
    if |s| == 0 {
    } else {
      var rest := SplitWs(s[1..]);
      SplitLosesOnlySpace(s[1..]);
      assert Concat(rest) == rest[0] + Concat(rest[1..]);
      if !IsSpace(s[0]) {
        var parts := [[s[0]] + rest[0]] + rest[1..];
        assert parts[1..] == rest[1..];
        assert Concat(parts) == ([s[0]] + rest[0]) + Concat(rest[1..]);
      } else if !(|s| > 1 && IsSpace(s[1])) {
        var parts := [""] + rest;
        assert parts[1..] == rest;
        assert Concat(parts) == "" + Concat(rest);
      }
    }
  }

  // ---------------------------------------------------------------
  // The two replace calls and includes
  // ---------------------------------------------------------------

  /** `w.replace(/[^\w]/g, '')`: keeps only the word characters. */
  function StripNonWord(w: string): (r: string)
    ensures AllWordChars(r)
    ensures |r| <= |w|
    ensures |w| == 1 ==> r == (if IsWordChar(w[0]) then w else "")
    ensures forall k :: 0 <= k < |w| && IsWordChar(w[k]) ==> w[k] in r
  {
    if |w| == 0 then ""
    else (if IsWordChar(w[0]) then [w[0]] else "") + StripNonWord(w[1..])
  }

  /** Stripping works character by character: it distributes over
      concatenation, so the result is the word characters of the input in
      their order. */
  lemma {:induction false} StripNonWordAppend(a: string, b: string)
    ensures StripNonWord(a + b) == StripNonWord(a) + StripNonWord(b)
  {
    if |a| > 0 {
      assert (a + b)[1..] == a[1..] + b;
      StripNonWordAppend(a[1..], b);
    } else {
      assert a + b == b;
    }
  }

  /** A token already made of word characters is left as it is. */
  lemma {:induction false} StripNonWordOfWord(w: string)
    requires AllWordChars(w)
    ensures StripNonWord(w) == w
  {
    if |w| > 0 {
      StripNonWordOfWord(w[1..]);
    }
  }

  /** `s.replace(/[^\w\s]/g, ' ')`: every other character becomes a space. */
  function BlankNonWord(s: string): (r: string)
    ensures |r| == |s|
    ensures forall i :: 0 <= i < |s| ==> IsWordChar(r[i]) || IsSpace(r[i])
    ensures forall i :: 0 <= i < |s| && (IsWordChar(s[i]) || IsSpace(s[i])) ==> r[i] == s[i]
  {
    if |s| == 0 then ""
    else [if IsWordChar(s[0]) || IsSpace(s[0]) then s[0] else ' '] + BlankNonWord(s[1..])
  }

  function StartsWith(s: string, t: string): bool
  {
    |t| <= |s| && s[..|t|] == t
  }

  predicate OccursAt(s: string, t: string, i: int)
  {
    0 <= i <= |s| - |t| && s[i..i + |t|] == t
  }

  /** Every character of an included text occurs in the including one. */
  lemma IncludesNeedsChars(s: string, t: string)
    requires Includes(s, t)
    ensures |t| <= |s|
    ensures forall k :: 0 <= k < |t| ==> t[k] in s
  {
    var i :| OccursAt(s, t, i);
    forall k | 0 <= k < |t| ensures t[k] in s {
      assert t[k] == s[i + k];
    }
  }

  /** A text holding a character the other lacks is not included in it. */
  lemma NotIncludedByChar(s: string, t: string, k: nat)
    requires k < |t| && t[k] !in s
    ensures !Includes(s, t)
  {
    if Includes(s, t) {
      IncludesNeedsChars(s, t);
    }
  }

  /** `s.includes(t)`: `t` occurs in `s` at some position. */
  function Includes(s: string, t: string): (b: bool)
    ensures b <==> exists i :: OccursAt(s, t, i)
    decreases |s|
  {
    if StartsWith(s, t) then
      assert OccursAt(s, t, 0);
      true
    else if |s| == 0 then false
    else
      var b := Includes(s[1..], t);
      assert b ==> exists i :: OccursAt(s, t, i) by {
        if b {
          var i :| OccursAt(s[1..], t, i);
          assert s[i + 1..i + 1 + |t|] == s[1..][i..i + |t|];
          assert OccursAt(s, t, i + 1);
        }
      }
      assert (exists i :: OccursAt(s, t, i)) ==> b by {
        if exists i :: OccursAt(s, t, i) {
          var i :| OccursAt(s, t, i);
          assert i != 0;
          assert s[1..][i - 1..i - 1 + |t|] == s[i..i + |t|];
          assert OccursAt(s[1..], t, i - 1);
        }
      }
      b
  }
}
