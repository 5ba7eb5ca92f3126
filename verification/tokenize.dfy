/**
 The text side of `convert_numbers` (squares.py, line 49): Python's
 `str.split()` with no separator, and `str.strip()`.

 Whitespace is the ASCII part of what Python's `str.isspace` accepts.
 */
module Tokenize {

  /** Tab, line feed, vertical tab, form feed, carriage return, the four
      information separators 0x1C-0x1F, and space. */
  predicate IsWhitespace(c: char)
  {
    ('\t' <= c <= '\r') || ('\U{1C}' <= c <= '\U{1F}') || c == ' '
  }

  predicate NoWhitespace(s: string)
  {
    forall i :: 0 <= i < |s| ==> !IsWhitespace(s[i])
  }

  predicate AllWhitespace(s: string)
  {
    forall i :: 0 <= i < |s| ==> IsWhitespace(s[i])
  }

  /** A piece `str.split()` can produce: non-empty, with no whitespace. */
  predicate IsToken(t: string)
  {
    |t| > 0 && NoWhitespace(t)
  }

  /** Length of the longest whitespace-free prefix of `s`. */
  function RunLength(s: string): (n: nat)
    ensures n <= |s|
    ensures NoWhitespace(s[..n])
    ensures n < |s| ==> IsWhitespace(s[n])
  {
    if |s| == 0 || IsWhitespace(s[0]) then 0
    else
      var m := RunLength(s[1..]);
      assert s[..m + 1] == [s[0]] + s[1..][..m];
      1 + m
  }

  /** `s.split()`: the maximal whitespace-free runs of `s`, left to right.
      Leading, trailing and repeated whitespace produce no empty pieces. */
  function Split(s: string): seq<string>
    decreases |s|
  {
    if |s| == 0 then []
    else if IsWhitespace(s[0]) then Split(s[1..])
    else
      var n := RunLength(s);
      [s[..n]] + Split(s[n..])
  }

  /** How many whitespace characters `s` starts with. */
  function LeadingWhitespace(s: string): (k: nat)
    ensures k <= |s|
    ensures forall i :: 0 <= i < k ==> IsWhitespace(s[i])
    ensures k < |s| ==> !IsWhitespace(s[k])
    decreases |s|
  {
    if |s| > 0 && IsWhitespace(s[0]) then 1 + LeadingWhitespace(s[1..]) else 0
  }

  /** Where `s[k..]` ends once its trailing whitespace is cut off. */
  function TrimmedEnd(s: string, k: nat): (e: nat)
    requires k <= |s|
    ensures k <= e <= |s|
    ensures forall i :: e <= i < |s| ==> IsWhitespace(s[i])
    ensures e > k ==> !IsWhitespace(s[e - 1])
    decreases |s|
  {
    if |s| > k && IsWhitespace(s[|s| - 1]) then TrimmedEnd(s[..|s| - 1], k) else |s|
  }

  /** `s.strip()`: `s` without its leading and trailing whitespace. The
      result is a slice `s[i..j]` with only whitespace outside it, and it
      neither starts nor ends with whitespace. A whitespace-only string
      strips to nothing, and a string without whitespace is left as it is. */
  function Strip(s: string): (r: string)
    ensures exists i, j :: 0 <= i <= j <= |s| && r == s[i..j]
                           && AllWhitespace(s[..i]) && AllWhitespace(s[j..])
    ensures |r| > 0 ==> !IsWhitespace(r[0]) && !IsWhitespace(r[|r| - 1])
    ensures r == [] <==> AllWhitespace(s)
    ensures NoWhitespace(s) ==> r == s
  {
    var k := LeadingWhitespace(s);
    var e := TrimmedEnd(s, k);
    StripBounds(s, k, e);
    s[k..e]
  }

  /** The cut points of `Strip`: whitespace only outside `s[k..e]`, none at
      either end of it. */
  lemma StripBounds(s: string, k: nat, e: nat)
    requires k <= e <= |s|
    requires forall i :: 0 <= i < k ==> IsWhitespace(s[i])
    requires k < |s| ==> !IsWhitespace(s[k])
    requires forall i :: e <= i < |s| ==> IsWhitespace(s[i])
    requires e > k ==> !IsWhitespace(s[e - 1])
    ensures AllWhitespace(s[..k]) && AllWhitespace(s[e..])
    ensures e > k ==> !IsWhitespace(s[k]) && !IsWhitespace(s[e - 1])
    ensures e == k <==> AllWhitespace(s)
    ensures NoWhitespace(s) ==> k == 0 && e == |s|
  {
    assert k > 0 ==> IsWhitespace(s[0]);
    assert e < |s| ==> IsWhitespace(s[e]);
    if e > k {
      assert !AllWhitespace(s) by { assert !IsWhitespace(s[k]); }
    }
  }

  /** Only one string meets the description `Strip` guarantees, so that
      description is a complete specification of `str.strip()`. */
  lemma StripIsUnique(s: string, i: nat, j: nat)
    requires i <= j <= |s|
    requires AllWhitespace(s[..i]) && AllWhitespace(s[j..])
    requires j > i ==> !IsWhitespace(s[i]) && !IsWhitespace(s[j - 1])
    ensures Strip(s) == s[i..j]
  {
    var k := LeadingWhitespace(s);
    var e := TrimmedEnd(s, k);
    StripBounds(s, k, e);
    if j > i {
      assert !AllWhitespace(s) by { assert !IsWhitespace(s[i]); }
      assert k == i;
      assert e == j;
    } else {
      assert AllWhitespace(s) by {
        forall p | 0 <= p < |s| ensures IsWhitespace(s[p]) {
          if p < i { assert s[..i][p] == s[p]; } else { assert s[j..][p - j] == s[p]; }
        }
      }
    }
  }

  /** `" ".join(ts)`: the tokens separated by single spaces. */
  function Join(ts: seq<string>): string
  {
    if |ts| == 0 then ""
    else if |ts| == 1 then ts[0]
    else ts[0] + " " + Join(ts[1..])
  }

  /** The concatenation of a list of strings. */
  function Concat(ts: seq<string>): string
  {
    if |ts| == 0 then "" else ts[0] + Concat(ts[1..])
  }

  /** `s` with every whitespace character removed. */
  function RemoveWhitespace(s: string): string
  {
    if |s| == 0 then ""
    else if IsWhitespace(s[0]) then RemoveWhitespace(s[1..])
    else [s[0]] + RemoveWhitespace(s[1..])
  }

  // ---------------------------------------------------------------------
  // Lemmas
  // ---------------------------------------------------------------------

  /** Every piece of a split is non-empty and holds no whitespace. */
  lemma {:induction false} SplitYieldsTokens(s: string)
    ensures forall i :: 0 <= i < |Split(s)| ==> IsToken(Split(s)[i])
    decreases |s|
  {
    if |s| > 0 {
      if IsWhitespace(s[0]) {
        SplitYieldsTokens(s[1..]);
      } else {
        SplitYieldsTokens(s[RunLength(s)..]);
      }
    }
  }

  /** A whitespace character ends the run, wherever it comes. */
  lemma {:induction false} RunLengthBeforeWhitespace(a: string, b: string)
    requires |b| > 0 && IsWhitespace(b[0])
    ensures RunLength(a + b) == RunLength(a)
  {
    if |a| > 0 && !IsWhitespace(a[0]) {
      assert (a + b)[1..] == a[1..] + b;
      RunLengthBeforeWhitespace(a[1..], b);
    } else if |a| == 0 {
      assert a + b == b;
    }
  }

  /** Splitting a string at one of its whitespace characters does not change
      the pieces: `(a + c + b).split() == a.split() + b.split()`. */
  lemma {:induction false} SplitAtWhitespace(a: string, c: char, b: string)
    requires IsWhitespace(c)
    ensures Split(a + [c] + b) == Split(a) + Split(b)
    decreases |a|
  {
    var s := a + [c] + b;
    if |a| == 0 {
      assert s[1..] == b;
    } else if IsWhitespace(a[0]) {
      assert s[1..] == a[1..] + [c] + b;
      SplitAtWhitespace(a[1..], c, b);
    } else {
      RunLengthBeforeWhitespace(a, [c] + b);
      assert s == a + ([c] + b);
      var n := RunLength(a);
      assert s[..n] == a[..n];
      assert s[n..] == a[n..] + [c] + b;
      SplitAtWhitespace(a[n..], c, b);
    }
  }

  /** Whitespace before the first piece is skipped. */
  lemma {:induction false} SplitSkipsLeadingWhitespace(w: string, b: string)
    requires AllWhitespace(w)
    ensures Split(w + b) == Split(b)
    decreases |w|
  {
    if |w| > 0 {
      assert (w + b)[1..] == w[1..] + b;
      SplitSkipsLeadingWhitespace(w[1..], b);
    } else {
      assert w + b == b;
    }
  }

  /** A run of whitespace of any length separates pieces as one character does. */
  lemma SplitAtWhitespaceRun(a: string, w: string, b: string)
    requires |w| > 0 && AllWhitespace(w)
    ensures Split(a + w + b) == Split(a) + Split(b)
  {
    assert a + w + b == a + [w[0]] + (w[1..] + b);
    SplitAtWhitespace(a, w[0], w[1..] + b);
    SplitSkipsLeadingWhitespace(w[1..], b);
  }

  /** A single token splits to itself. */
  lemma SplitToken(t: string)
    requires IsToken(t)
    ensures Split(t) == [t]
  {
    assert t[..|t|] == t && t[|t|..] == [];
  }

  /** Whitespace after the last piece is dropped. */
  lemma SplitDropsTrailingWhitespace(a: string, w: string)
    requires AllWhitespace(w)
    ensures Split(a + w) == Split(a)
  {
    if |w| > 0 {
      SplitAtWhitespaceRun(a, w, "");
      assert a + w + "" == a + w;
    } else {
      assert a + w == a;
    }
  }

  /** A token with whitespace of any length around it splits to itself. */
  lemma SplitPaddedToken(w1: string, t: string, w2: string)
    requires AllWhitespace(w1) && IsToken(t) && AllWhitespace(w2)
    ensures Split(w1 + (t + w2)) == [t]
  {
    SplitSkipsLeadingWhitespace(w1, t + w2);
    SplitDropsTrailingWhitespace(t, w2);
    SplitToken(t);
  }

  /** Two tokens, with whitespace around them and a non-empty run between
      them, split into those two tokens. */
  lemma SplitPaddedPair(w1: string, a: string, w2: string, b: string, w3: string)
    requires AllWhitespace(w1) && IsToken(a) && |w2| > 0 && AllWhitespace(w2)
    requires IsToken(b) && AllWhitespace(w3)
    ensures Split(w1 + a + w2 + (b + w3)) == [a, b]
  {
    SplitAtWhitespaceRun(w1 + a, w2, b + w3);
    SplitSkipsLeadingWhitespace(w1, a);
    SplitDropsTrailingWhitespace(b, w3);
    SplitToken(a);
    SplitToken(b);
  }

  /** Splitting undoes joining with single spaces: the round trip of
      well-formed tokens through `" ".join` and `str.split`. */
  lemma {:induction false} SplitJoin(ts: seq<string>)
    requires forall i :: 0 <= i < |ts| ==> IsToken(ts[i])
    ensures Split(Join(ts)) == ts
  {
    if |ts| == 0 {
    } else if |ts| == 1 {
      SplitToken(ts[0]);
    } else {
      SplitJoin(ts[1..]);
      SplitToken(ts[0]);
      assert Join(ts) == ts[0] + [' '] + Join(ts[1..]);
      SplitAtWhitespace(ts[0], ' ', Join(ts[1..]));
      assert ts == [ts[0]] + ts[1..];
    }
  }

  /** A string yields no pieces exactly when it is empty or all whitespace. */
  lemma {:induction false} SplitEmptyIffBlank(s: string)
    ensures Split(s) == [] <==> AllWhitespace(s)
    decreases |s|
  {
    if |s| > 0 {
      if IsWhitespace(s[0]) {
        SplitEmptyIffBlank(s[1..]);
        if AllWhitespace(s[1..]) {
          assert AllWhitespace(s) by {
            forall i | 0 < i < |s| ensures IsWhitespace(s[i]) {
              assert s[1..][i - 1] == s[i];
            }
          }
        } else {
          var i :| 0 <= i < |s[1..]| && !IsWhitespace(s[1..][i]);
          assert !IsWhitespace(s[i + 1]);
        }
      }
    }
  }

  /** The concatenation of the pieces is the string without its whitespace:
      no character is lost or invented, and the order is kept. */
  lemma {:induction false} SplitKeepsContent(s: string)
    ensures Concat(Split(s)) == RemoveWhitespace(s)
    decreases |s|
  {
    if |s| > 0 {
      if IsWhitespace(s[0]) {
        SplitKeepsContent(s[1..]);
      } else {
        var n := RunLength(s);
        SplitKeepsContent(s[n..]);
        assert s == s[..n] + s[n..];
        RemoveWhitespaceAppend(s[..n], s[n..]);
        RemoveWhitespaceOfToken(s[..n]);
        assert Split(s) == [s[..n]] + Split(s[n..]);
      }
    }
  }

  lemma {:induction false} RemoveWhitespaceAppend(a: string, b: string)
    ensures RemoveWhitespace(a + b) == RemoveWhitespace(a) + RemoveWhitespace(b)
  {
    if |a| > 0 {
      assert (a + b)[1..] == a[1..] + b;
      RemoveWhitespaceAppend(a[1..], b);
    } else {
      assert a + b == b;
    }
  }

  lemma {:induction false} RemoveWhitespaceOfToken(t: string)
    requires NoWhitespace(t)
    ensures RemoveWhitespace(t) == t
  {
    if |t| > 0 {
      RemoveWhitespaceOfToken(t[1..]);
    }
  }
}
