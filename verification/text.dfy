/**
 * The text clean-ups the scraping collectors apply to a number as printed on
 * a web page ("1,05", "12,5%", "N/A") before handing it to `float()`.
 */
module Text {

  /** `pat` occurs in `s` starting at position `i`. */
  predicate OccursAt(s: string, pat: string, i: int)
  {
    0 <= i && i + |pat| <= |s| && s[i..i + |pat|] == pat
  }

  /** `pat` occurs somewhere in `s`. */
  predicate Occurs(s: string, pat: string)
  {
    exists i :: 0 <= i <= |s| && OccursAt(s, pat, i)
  }

  /**
   * `s.replace(pat, rep)`: every non-overlapping occurrence of `pat`, found
   * scanning from the left, is replaced by `rep`.
   */
  function Replace(s: string, pat: string, rep: string): (r: string)
    requires |pat| > 0
    ensures |pat| == 1 && pat[0] !in rep ==> pat[0] !in r
    ensures |pat| == 1 && |rep| == 1 ==> |r| == |s|
    ensures forall c :: c in r && c !in rep ==> c in s
    decreases |s|
  {
    if |s| < |pat| then s
    else if s[..|pat|] == pat then rep + Replace(s[|pat|..], pat, rep)
    else [s[0]] + Replace(s[1..], pat, rep)
  }

  /** Replacing a pattern that does not occur leaves the text as it is. */
  lemma {:induction false} ReplaceAbsent(s: string, pat: string, rep: string)
    requires |pat| > 0 && !Occurs(s, pat)
    ensures Replace(s, pat, rep) == s
    decreases |s|
  {
    if |s| >= |pat| {
      assert s[0..0 + |pat|] == s[..|pat|];
      assert !OccursAt(s, pat, 0);
      var t := s[1..];
      assert !Occurs(t, pat) by {
        forall i
          ensures !OccursAt(t, pat, i)
        {
          if 0 <= i && i + |pat| <= |t| {
            assert t[i..i + |pat|] == s[i + 1..i + 1 + |pat|];
            assert !OccursAt(s, pat, i + 1);
          }
        }
      }
      ReplaceAbsent(t, pat, rep);
      assert [s[0]] + t == s;
    }
  }

  /** A text free of the one-character pattern passes through unchanged in front of the rest. */
  lemma {:induction false} ReplaceSkip(a: string, b: string, c: char, rep: string)
    requires c !in a
    ensures Replace(a + b, [c], rep) == a + Replace(b, [c], rep)
    decreases |a|
  {
    if |a| == 0 {
      assert a + b == b;
    } else {
      var s := a + b;
      assert s[0] == a[0] && s[..1] != [c];
      assert s[1..] == a[1..] + b;
      ReplaceSkip(a[1..], b, c, rep);
      assert [a[0]] + a[1..] == a;
    }
  }

  /** A one-character pattern occurs exactly when that character is in the text. */
  lemma OccursChar(s: string, c: char)
    ensures Occurs(s, [c]) <==> c in s
  {
    if c in s {
      var i :| 0 <= i < |s| && s[i] == c;
      assert OccursAt(s, [c], i);
    }
    if Occurs(s, [c]) {
      var i :| 0 <= i <= |s| && OccursAt(s, [c], i);
      assert s[i] == s[i..i + 1][0];
    }
  }

  /** The Fundamentus yield column: `%` removed, decimal comma turned into a point. */
  function FundamentusYield(s: string): (r: string)
    ensures '%' !in r && ',' !in r
    ensures forall c :: c in r && c != '.' ==> c in s
  {
    Replace(Replace(s, "%", ""), ",", ".")
  }

  /** Cleaning the yield text twice is cleaning it once. */
  lemma FundamentusYieldIdempotent(s: string)
    ensures FundamentusYield(FundamentusYield(s)) == FundamentusYield(s)
  {
    var r := FundamentusYield(s);
    OccursChar(r, '%');
    ReplaceAbsent(r, "%", "");
    OccursChar(r, ',');
    ReplaceAbsent(r, ",", ".");
  }

  /** The Status Invest P/VP text: decimal comma turned into a point. */
  function StatusInvestRatio(s: string): (r: string)
    ensures |r| == |s| && ',' !in r
  {
    Replace(s, ",", ".")
  }

  /** The Status Invest yield text: decimal comma to point, `%` removed, "N/A" read as "0". */
  function StatusInvestYield(s: string): (r: string)
    ensures ',' !in r && '%' !in r
  {
    var t := Replace(Replace(s, ",", "."), "%", "");
    var r := Replace(t, "N/A", "0");
    assert ',' !in r && '%' !in r by {
      forall c | c in r
        ensures c != ',' && c != '%'
      {
        if c != '0' {
          assert c in t;
        }
      }
    }
    r
  }

  /** The cleanings on the texts the pages print: "12,5%" reads as 12.5 and "N/A" as 0. */
  lemma NotApplicableReadsZero()
    ensures StatusInvestYield("N/A") == "0"
  {
    assert Replace("N/A", ",", ".") == "N/A";
    assert Replace("N/A", "%", "") == "N/A";
    assert Replace("N/A", "N/A", "0") == "0";
  }
}
