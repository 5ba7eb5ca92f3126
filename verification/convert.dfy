/**
 `convert_numbers` (squares.py, lines 36-51): split every text fragment at
 whitespace, strip each piece, collect the pieces of all fragments in order,
 then parse each as a base-10 integer. One bad token fails the whole call.
 */
module Convert {
  import opened Results
  import opened Tokenize
  import opened Decimal

  /** `[token.strip() for token in s.split()]` (line 49). The pieces of a
      split hold no whitespace, so stripping them changes nothing. */
  function Pieces(s: string): (ps: seq<string>)
    ensures ps == Split(s)
  {
    var split := Split(s);
    SplitYieldsTokens(s);
    seq(|split|, i requires 0 <= i < |split| => Strip(split[i]))
  }

  /** `all_numbers` once the loop of lines 45-49 has run: the pieces of the
      first fragment, then those of the second, and so on. */
  function Tokens(fragments: seq<string>): seq<string>
  {
    if |fragments| == 0 then [] else Pieces(fragments[0]) + Tokens(fragments[1..])
  }

  /** How many tokens the fragments hold in all. */
  function TokenCount(fragments: seq<string>): nat
  {
    if |fragments| == 0 then 0 else |Split(fragments[0])| + TokenCount(fragments[1..])
  }

  /** `[int(t) for t in tokens]` (line 51): the values in token order, or the
      first token `int()` rejects. */
  function ParseAll(tokens: seq<string>): (r: Result<seq<int>>)
    ensures r.Ok? <==> forall i :: 0 <= i < |tokens| ==> IsIntLiteral(tokens[i])
    ensures r.Ok? ==> |r.value| == |tokens|
    ensures r.Ok? ==> forall i :: 0 <= i < |tokens| ==> ParseInt(tokens[i]) == Some(r.value[i])
    ensures r.Err? ==> exists k :: 0 <= k < |tokens| && r.error == ParseError(tokens[k])
                                   && !IsIntLiteral(tokens[k])
                                   && forall j :: 0 <= j < k ==> IsIntLiteral(tokens[j])
  {
    if |tokens| == 0 then Ok([])
    else
      match ParseInt(tokens[0])
      case None => Err(ParseError(tokens[0]))
      case Some(v) =>
        match ParseAll(tokens[1..])
        case Err(e) =>
          assert forall k :: 0 <= k < |tokens[1..]| ==> tokens[1..][k] == tokens[k + 1];
          Err(e)
        case Ok(vs) => Ok([v] + vs)
  }

  /** `convert_numbers(fragments)`: the values of all tokens in order, or
      the first token, across all fragments, that `int()` rejects. */
  function ConvertNumbers(fragments: seq<string>): (r: Result<seq<int>>)
    ensures r.Ok? <==> forall i :: 0 <= i < |Tokens(fragments)| ==> IsIntLiteral(Tokens(fragments)[i])
    ensures r.Ok? ==> |r.value| == |Tokens(fragments)| == TokenCount(fragments)
    ensures r.Ok? ==> forall i :: 0 <= i < |r.value| ==> ParseInt(Tokens(fragments)[i]) == Some(r.value[i])
    ensures r.Err? ==> r.error.ParseError? && !IsIntLiteral(r.error.token)
    ensures r.Err? ==> exists k :: 0 <= k < |Tokens(fragments)|
                                   && r.error == ParseError(Tokens(fragments)[k])
                                   && !IsIntLiteral(Tokens(fragments)[k])
                                   && forall j :: 0 <= j < k ==> IsIntLiteral(Tokens(fragments)[j])
  {
    TokensLength(fragments);
    ParseAll(Tokens(fragments))
  }

  // ---------------------------------------------------------------------
  // Lemmas
  // ---------------------------------------------------------------------

  lemma {:induction false} TokensLength(fragments: seq<string>)
    ensures |Tokens(fragments)| == TokenCount(fragments)
  {
    if |fragments| > 0 {
      TokensLength(fragments[1..]);
    }
  }

  /** Every token handed to `int()` is non-empty and holds no whitespace. */
  lemma {:induction false} TokensAreTokens(fragments: seq<string>)
    ensures forall i :: 0 <= i < |Tokens(fragments)| ==> IsToken(Tokens(fragments)[i])
  {
    if |fragments| > 0 {
      SplitYieldsTokens(fragments[0]);
      TokensAreTokens(fragments[1..]);
    }
  }

  /** The tokens of two fragment lists, one after the other, are the tokens
      of the first followed by those of the second. */
  lemma {:induction false} TokensAppend(a: seq<string>, b: seq<string>)
    ensures Tokens(a + b) == Tokens(a) + Tokens(b)
  {
    if |a| == 0 {
      assert a + b == b;
    } else {
      assert (a + b)[0] == a[0] && (a + b)[1..] == a[1..] + b;
      TokensAppend(a[1..], b);
      var p, u, v := Pieces(a[0]), Tokens(a[1..]), Tokens(b);
      assert p + (u + v) == (p + u) + v;
    }
  }

  /** Parsing two token lists one after the other: the first failure wins,
      otherwise the values are concatenated. */
  lemma {:induction false} ParseAllAppend(s: seq<string>, t: seq<string>)
    ensures ParseAll(s + t) ==
              match ParseAll(s)
              case Err(e) => Err(e)
              case Ok(u) =>
                match ParseAll(t)
                case Err(e) => Err(e)
                case Ok(v) => Ok(u + v)
  {
    if |s| == 0 {
      assert s + t == t;
      match ParseAll(t) {
        case Err(_) =>
        case Ok(v) => assert [] + v == v;
      }
    } else {
      assert (s + t)[0] == s[0];
      assert (s + t)[1..] == s[1..] + t;
      ParseAllAppend(s[1..], t);
      match ParseAll(s[1..]) {
        case Err(_) =>
        case Ok(u) =>
          match ParseAll(t) {
            case Err(_) =>
            case Ok(v) =>
              if ParseInt(s[0]).Some? {
                assert [ParseInt(s[0]).value] + (u + v) == ([ParseInt(s[0]).value] + u) + v;
              }
          }
      }
    }
  }

  /** `convert_numbers(a + b)` succeeds exactly when both halves do, and then
      yields their results concatenated; otherwise it fails as the first
      failing half does. */
  lemma ConvertAppend(a: seq<string>, b: seq<string>)
    ensures ConvertNumbers(a + b) ==
              match ConvertNumbers(a)
              case Err(e) => Err(e)
              case Ok(u) =>
                match ConvertNumbers(b)
                case Err(e) => Err(e)
                case Ok(v) => Ok(u + v)
  {
    TokensAppend(a, b);
    ParseAllAppend(Tokens(a), Tokens(b));
  }

  /** The empty list converts to the empty list (lines 45, 51). */
  lemma ConvertEmpty()
    ensures ConvertNumbers([]) == Ok([])
  {
  }

  /** Cutting a fragment at one of its whitespace characters into two
      fragments does not change the result. */
  lemma ConvertSplitFragment(x: string, c: char, y: string)
    requires IsWhitespace(c)
    ensures ConvertNumbers([x + [c] + y]) == ConvertNumbers([x, y])
  {
    SplitAtWhitespace(x, c, y);
    assert Tokens([x + [c] + y]) == Split(x) + Split(y);
    assert [x + [c] + y][1..] == [] && [x, y][1..] == [y] && [y][1..] == [];
    assert Tokens([y]) == Split(y);
    assert Tokens([x, y]) == Split(x) + Split(y);
  }

  /** A fragment that is empty or only whitespace contributes nothing,
      wherever it stands. */
  lemma BlankFragmentContributesNothing(a: seq<string>, blank: string, b: seq<string>)
    requires AllWhitespace(blank)
    ensures ConvertNumbers(a + [blank] + b) == ConvertNumbers(a + b)
  {
    SplitEmptyIffBlank(blank);
    TokensAppend(a + [blank], b);
    TokensAppend(a, [blank]);
    TokensAppend(a, b);
    assert [blank][1..] == [];
    assert Tokens([blank]) == [];
    assert Tokens(a) + [] == Tokens(a);
  }

  /** The numbers written in decimal, separated by single spaces. */
  function Render(ns: seq<int>): string
  {
    Join(seq(|ns|, i requires 0 <= i < |ns| => ShowInt(ns[i])))
  }

  /** Writing a list of integers out as one fragment and converting it back
      gives the list again. */
  lemma ConvertRender(ns: seq<int>)
    ensures ConvertNumbers([Render(ns)]) == Ok(ns)
  {
    var shown := seq(|ns|, i requires 0 <= i < |ns| => ShowInt(ns[i]));
    forall i | 0 <= i < |shown| ensures IsToken(shown[i]) {
      ShowIntIsToken(ns[i]);
    }
    SplitJoin(shown);
    assert [Render(ns)][1..] == [];
    assert Tokens([Render(ns)]) == shown;
    ParseAllShown(ns, shown);
  }

  /** Parsing the decimal renderings of a list of integers gives the list. */
  lemma {:induction false} ParseAllShown(ns: seq<int>, toks: seq<string>)
    requires |toks| == |ns|
    requires forall i :: 0 <= i < |ns| ==> toks[i] == ShowInt(ns[i])
    ensures ParseAll(toks) == Ok(ns)
  {
    if |ns| > 0 {
      ParseShowInt(ns[0]);
      assert ParseInt(toks[0]) == Some(ns[0]);
      ParseAllShown(ns[1..], toks[1..]);
      assert ParseAll(toks) == Ok([ns[0]] + ns[1..]);
      assert ns == [ns[0]] + ns[1..];
    }
  }

  lemma ShowIntIsToken(n: int)
    ensures IsToken(ShowInt(n))
  {
    var s := ShowInt(n);
    forall i | 0 <= i < |s| ensures !IsWhitespace(s[i]) {
      if n < 0 && i > 0 {
        assert s[i] == ShowNat(-n)[i - 1];
      }
    }
  }

  /** The docstring example (lines 41-42). The steps below take the
      fragments as parameters, so that the verifier reasons about them
      through the general lemmas instead of unfolding every definition on
      the literal text. */
  lemma DocstringExample()
    ensures ConvertNumbers(["4", " 8 ", "15 16", " 23    42 "]) == Ok([4, 8, 15, 16, 23, 42])
  {
    var fs := ["4", " 8 ", "15 16", " 23    42 "];
    DocstringSplits();
    DocstringTokens(fs);
    DocstringValues(Tokens(fs));
  }

  lemma DocstringTokens(fs: seq<string>)
    requires |fs| == 4 && Split(fs[0]) == ["4"] && Split(fs[1]) == ["8"]
    requires Split(fs[2]) == ["15", "16"] && Split(fs[3]) == ["23", "42"]
    ensures var toks := Tokens(fs);
            |toks| == 6 && toks[0] == "4" && toks[1] == "8" && toks[2] == "15"
            && toks[3] == "16" && toks[4] == "23" && toks[5] == "42"
  {
    TokensOfFour(fs[0], fs[1], fs[2], fs[3]);
    assert fs == [fs[0], fs[1], fs[2], fs[3]];
  }

  lemma DocstringValues(toks: seq<string>)
    requires |toks| == 6 && toks[0] == "4" && toks[1] == "8" && toks[2] == "15"
    requires toks[3] == "16" && toks[4] == "23" && toks[5] == "42"
    ensures ParseAll(toks) == Ok([4, 8, 15, 16, 23, 42])
  {
    var ns := [4, 8, 15, 16, 23, 42];
    DocstringShown();
    forall i | 0 <= i < |ns| ensures toks[i] == ShowInt(ns[i]) {
      if i < 3 {
        assert i == 0 || i == 1 || i == 2;
      } else {
        assert i == 3 || i == 4 || i == 5;
      }
    }
    ParseAllShown(ns, toks);
  }

  lemma DocstringShown()
    ensures ShowInt(4) == "4" && ShowInt(8) == "8"
    ensures ShowInt(15) == "15" && ShowInt(16) == "16"
    ensures ShowInt(23) == "23" && ShowInt(42) == "42"
  {
  }

  lemma DocstringSplits()
    ensures Split("4") == ["4"]
    ensures Split(" 8 ") == ["8"]
    ensures Split("15 16") == ["15", "16"]
    ensures Split(" 23    42 ") == ["23", "42"]
  {
    SplitToken("4");
    SplitEight();
    SplitFifteenSixteen();
    SplitTwentyThreeFortyTwo();
  }

  lemma SplitEight()
    ensures Split(" 8 ") == ["8"]
  {
    assert " 8 " == " " + ("8" + " ");
    SplitPaddedToken(" ", "8", " ");
  }

  lemma SplitFifteenSixteen()
    ensures Split("15 16") == ["15", "16"]
  {
    assert "15 16" == "" + "15" + " " + ("16" + "");
    SplitPaddedPair("", "15", " ", "16", "");
  }

  lemma SplitTwentyThreeFortyTwo()
    ensures Split(" 23    42 ") == ["23", "42"]
  {
    assert " 23    42 " == " " + "23" + "    " + ("42" + " ");
    SplitPaddedPair(" ", "23", "    ", "42", " ");
  }

  lemma TokensOfOne(f: string)
    ensures Tokens([f]) == Split(f)
  {
    assert [f][1..] == [];
  }

  lemma TokensOfFour(f0: string, f1: string, f2: string, f3: string)
    ensures Tokens([f0, f1, f2, f3]) == Split(f0) + Split(f1) + Split(f2) + Split(f3)
  {
    TokensOfOne(f0);
    TokensOfOne(f1);
    TokensOfOne(f2);
    TokensOfOne(f3);
    assert [f0, f1, f2, f3] == [f0] + [f1] + [f2] + [f3];
    TokensAppend([f0] + [f1] + [f2], [f3]);
    TokensAppend([f0] + [f1], [f2]);
    TokensAppend([f0], [f1]);
  }

  /** A token that is not an integer literal fails the call. */
  lemma BadTokenExample()
    ensures ConvertNumbers(["abc"]) == Err(ParseError("abc"))
  {
    SplitToken("abc");
    assert Tokens(["abc"]) == ["abc"];
  }

  /** `convert_numbers(["4 8"]) == convert_numbers(["4", "8"])`. */
  lemma SplitFragmentExample()
    ensures ConvertNumbers(["4 8"]) == ConvertNumbers(["4", "8"])
  {
    assert "4 8" == "4" + [' '] + "8";
    ConvertSplitFragment("4", ' ', "8");
  }
}
