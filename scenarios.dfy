/**
 * Worked examples of the matcher and the attribution on concrete directories, each proved from
 * the definitions. Every literal query is already upper-cased, as the dashboard upper-cases a
 * store name before it calls findMatch (and `Matcher.MatchIgnoresCase` shows case plays no part).
 * Each fact about a literal is its own small lemma; the scenario lemmas put them together.
 */
module Scenarios {
  import opened Wrappers
  import opened Text
  import opened Matcher

  // --- generic steps, so that no literal is tokenized in one go

  lemma Words2(a: string, b: string)
    requires IsToken(a) && IsToken(b)
    ensures Tokenize(a + " " + b) == [a, b]
  {
    TokenizeWord(a);
    TokenizeWord(b);
    TokenizeConcat(a, b);
  }

  lemma Words3(a: string, b: string, c: string)
    requires IsToken(a) && IsToken(b) && IsToken(c)
    ensures Tokenize(a + " " + b + " " + c) == [a, b, c]
  {
    Words2(a, b);
    TokenizeWord(c);
    TokenizeConcat(a + " " + b, c);
  }

  /** A one-letter word is dropped. */
  lemma TokenizeLetter(c: char)
    requires IsTokenChar(c)
    ensures Tokenize([c]) == []
  {
    assert IsWord([c]);
    assert Join([[c]], ' ') == [c];
    TokenizeWords([[c]]);
    assert KeepLong([[c]]) == [];
  }

  lemma Words2Letter(a: string, b: string, c: char)
    requires IsToken(a) && IsToken(b) && IsTokenChar(c)
    ensures Tokenize(a + " " + b + " " + [c]) == [a, b]
  {
    Words2(a, b);
    TokenizeLetter(c);
    TokenizeConcat(a + " " + b, [c]);
  }

  lemma WordLetter(a: string, c: char)
    requires IsToken(a) && IsTokenChar(c)
    ensures Tokenize(a + " " + [c]) == [a]
  {
    TokenizeWord(a);
    TokenizeLetter(c);
    TokenizeConcat(a, [c]);
  }

  lemma WordLetterWord(a: string, c: char, b: string)
    requires IsToken(a) && IsTokenChar(c) && IsToken(b)
    ensures Tokenize(a + " " + [c] + " " + b) == [a, b]
  {
    WordLetter(a, c);
    TokenizeWord(b);
    TokenizeConcat(a + " " + [c], b);
  }

  lemma TooShort(s: string, sub: string)
    requires |s| < |sub|
    ensures !Contains(s, sub)
  {
    if Contains(s, sub) {
      ContainsBounds(s, sub);
    }
  }

  lemma Lacks(s: string, sub: string, c: char)
    requires c in sub && c !in s
    ensures !Contains(s, sub)
  {
    if Contains(s, sub) {
      ContainsBounds(s, sub);
    }
  }

  /** Glue: the matcher's answer follows from the query tokens and the index alone. */
  lemma MatchVia(raw: string, keys: seq<string>, q: seq<string>, idx: seq<KeyTokens>)
    requires raw != "" && Tokenize(raw) != []
    requires QueryTokens(raw) == q && BuildIndex(keys) == idx
    ensures MatchStore(raw, BuildIndex(keys)) == MatchIn(q, idx)
  {
  }

  // --- the directory key "LOJA WEBCONTINENTAL 01"

  lemma TokLoja() ensures IsToken("LOJA") {}
  lemma TokWeb() ensures IsToken("WEBCONTINENTAL") {}
  lemma Tok01() ensures IsToken("01") {}

  lemma WebKeyText()
    ensures "LOJA" + " " + "WEBCONTINENTAL" + " " + "01" == "LOJA WEBCONTINENTAL 01"
  {
  }

  lemma WebTokens()
    ensures Tokenize("LOJA WEBCONTINENTAL 01") == ["LOJA", "WEBCONTINENTAL", "01"]
  {
    TokLoja(); TokWeb(); Tok01();
    Words3("LOJA", "WEBCONTINENTAL", "01");
    WebKeyText();
  }

  /** Glue: the index of one key, from its tokens. */
  lemma Index1(k: string, t: seq<string>)
    requires Tokenize(k) == t
    ensures BuildIndex([k]) == [KeyTokens(k, t)]
  {
  }

  lemma WebKeyTokens()
    ensures BuildIndex(["LOJA WEBCONTINENTAL 01"]) == [KeyTokens("LOJA WEBCONTINENTAL 01", ["LOJA", "WEBCONTINENTAL", "01"])]
  {
    WebTokens();
    Index1("LOJA WEBCONTINENTAL 01", ["LOJA", "WEBCONTINENTAL", "01"]);
  }

  // --- the query "WEBCONTINENTAL SHOP"

  lemma JoinedUpper() ensures Upper("WEBCONTINENTAL SHOP") == "WEBCONTINENTAL SHOP" {}

  lemma JoinedNoPoloar()
    ensures !Contains("WEBCONTINENTAL SHOP", "POLOAR")
  {
    Lacks("WEBCONTINENTAL SHOP", "POLOAR", 'R');
  }

  lemma JoinedNoStr()
    ensures !Contains("WEBCONTINENTAL SHOP", "STR")
  {
    Lacks("WEBCONTINENTAL SHOP", "STR", 'R');
  }

  lemma JoinedHasBrand()
    ensures Contains("WEBCONTINENTAL SHOP", "WEBCONTINENTAL")
  {
    ContainsAt("WEBCONTINENTAL SHOP", "WEBCONTINENTAL", 0);
  }

  lemma JoinedTokens()
    ensures Tokenize("WEBCONTINENTAL SHOP") == ["WEBCONTINENTAL", "SHOP"]
  {
    var ts := ["WEBCONTINENTAL", "SHOP"];
    assert ts[1..] == ["SHOP"];
    assert "WEBCONTINENTAL SHOP" == Join(ts, ' ');
    assert IsToken("WEBCONTINENTAL") && IsToken("SHOP");
    TokenizeJoin(ts);
  }

  lemma JoinedQuery()
    ensures QueryTokens("WEBCONTINENTAL SHOP") == ["WEBCONTINENTAL", "SHOP", "TRAVENIDAESSA", "WEBCONTINENTAL"]
  {
    JoinedTokens();
    JoinedUpper();
    JoinedNoPoloar();
    JoinedNoStr();
    JoinedHasBrand();
  }

  lemma JoinedScores()
    ensures MatchIn(["WEBCONTINENTAL", "SHOP", "TRAVENIDAESSA", "WEBCONTINENTAL"],
                    [KeyTokens("LOJA WEBCONTINENTAL 01", ["LOJA", "WEBCONTINENTAL", "01"])])
            == Some("LOJA WEBCONTINENTAL 01")
  {
    var q := ["WEBCONTINENTAL", "SHOP", "TRAVENIDAESSA", "WEBCONTINENTAL"];
    var keyToks := ["LOJA", "WEBCONTINENTAL", "01"];
    assert Overlap(q, keyToks) == 1;
    assert Score2(q, keyToks) == Threshold2;
  }

  /** A query spelling the brand as one word triggers the alias tokens and reaches the directory key. */
  lemma WebContinentalAlias()
    ensures MatchStore("WEBCONTINENTAL SHOP", BuildIndex(["LOJA WEBCONTINENTAL 01"])) == Some("LOJA WEBCONTINENTAL 01")
  {
    WebKeyTokens();
    JoinedQuery();
    JoinedTokens();
    JoinedScores();
    MatchVia("WEBCONTINENTAL SHOP", ["LOJA WEBCONTINENTAL 01"],
             ["WEBCONTINENTAL", "SHOP", "TRAVENIDAESSA", "WEBCONTINENTAL"],
             [KeyTokens("LOJA WEBCONTINENTAL 01", ["LOJA", "WEBCONTINENTAL", "01"])]);
  }

  // --- the query "WEB CONTINENTAL UM"

  lemma SplitUpper() ensures Upper("WEB CONTINENTAL UM") == "WEB CONTINENTAL UM" {}

  lemma SplitNoPoloar()
    ensures !Contains("WEB CONTINENTAL UM", "POLOAR")
  {
    Lacks("WEB CONTINENTAL UM", "POLOAR", 'R');
  }

  lemma SplitNoStr()
    ensures !Contains("WEB CONTINENTAL UM", "STR")
  {
    Lacks("WEB CONTINENTAL UM", "STR", 'R');
  }

  lemma SplitNoBrand()
    ensures !Contains("WEB CONTINENTAL UM", "WEBCONTINENTAL")
  {
    var b := "WEBCONTINENTAL";
    assert ' ' !in b;
    assert "CONTINENTAL UM" == "CONTINENTAL" + [' '] + "UM";
    assert "WEB CONTINENTAL UM" == "WEB" + [' '] + "CONTINENTAL UM";
    TooShort("WEB", b);
    TooShort("CONTINENTAL", b);
    TooShort("UM", b);
    if Contains("CONTINENTAL UM", b) {
      ContainsAcross("CONTINENTAL", ' ', "UM", b);
    }
    if Contains("WEB CONTINENTAL UM", b) {
      ContainsAcross("WEB", ' ', "CONTINENTAL UM", b);
    }
  }

  lemma SplitText()
    ensures "WEB" + " " + "CONTINENTAL" + " " + "UM" == "WEB CONTINENTAL UM"
  {
  }

  lemma SplitTokens()
    ensures Tokenize("WEB CONTINENTAL UM") == ["WEB", "CONTINENTAL", "UM"]
  {
    assert IsToken("WEB") && IsToken("CONTINENTAL") && IsToken("UM");
    Words3("WEB", "CONTINENTAL", "UM");
    SplitText();
  }

  lemma SplitQuery()
    ensures QueryTokens("WEB CONTINENTAL UM") == ["WEB", "CONTINENTAL", "UM"]
  {
    SplitTokens();
    SplitUpper();
    SplitNoPoloar();
    SplitNoStr();
    SplitNoBrand();
  }

  lemma SplitScores()
    ensures MatchIn(["WEB", "CONTINENTAL", "UM"],
                    [KeyTokens("LOJA WEBCONTINENTAL 01", ["LOJA", "WEBCONTINENTAL", "01"])])
            == None
  {
    var q := ["WEB", "CONTINENTAL", "UM"];
    var keyToks := ["LOJA", "WEBCONTINENTAL", "01"];
    assert Overlap(q, keyToks) == 0;
    assert Score2(q, keyToks) == 0;
  }

  /** Written as two words the brand shares no token with the key and triggers no alias: no match. */
  lemma WebContinentalSplit()
    ensures MatchStore("WEB CONTINENTAL UM", BuildIndex(["LOJA WEBCONTINENTAL 01"])) == None
  {
    WebKeyTokens();
    SplitQuery();
    SplitTokens();
    SplitScores();
    MatchVia("WEB CONTINENTAL UM", ["LOJA WEBCONTINENTAL 01"], ["WEB", "CONTINENTAL", "UM"],
             [KeyTokens("LOJA WEBCONTINENTAL 01", ["LOJA", "WEBCONTINENTAL", "01"])]);
  }

  // --- the directory keys "LOJA A" and "LOJA B STR"

  /** The matcher over a two-key index with no perfect key: the strictly better key wins, ties go first. */
  lemma TwoKeys(q: seq<string>, a: KeyTokens, b: KeyTokens)
    requires !Perfect(q, a.tokens) && !Perfect(q, b.tokens)
    ensures var sa := Score2(q, a.tokens); var sb := Score2(q, b.tokens);
      MatchIn(q, [a, b]) ==
        if sb > sa then (if sb >= Threshold2 then Some(b.original) else None)
        else if sa > 0 && sa >= Threshold2 then Some(a.original) else None
  {
    var idx := [a, b];
    var sa := Score2(q, a.tokens);
    assert idx[..1] == [a] && [a][..0] == [];
    assert idx[1..] == [b] && [b][1..] == [];
    assert Best(q, [a]) == if sa > 0 then (sa, Some(0)) else (0, None);
    assert FirstPerfect(q, [b]) == None;
    assert FirstPerfect(q, idx) == None;
  }

  /** Glue: the index of two keys, from the tokens of each. */
  lemma Index2(k1: string, k2: string, t1: seq<string>, t2: seq<string>)
    requires Tokenize(k1) == t1 && Tokenize(k2) == t2
    ensures BuildIndex([k1, k2]) == [KeyTokens(k1, t1), KeyTokens(k2, t2)]
  {
  }

  /** Glue: the query tokens of an upper-case text that triggers no alias. */
  lemma PlainQuery(raw: string, toks: seq<string>)
    requires Tokenize(raw) == toks && Upper(raw) == raw
    requires !Contains(raw, "POLOAR") && !Contains(raw, "STR") && !Contains(raw, "WEBCONTINENTAL")
    ensures QueryTokens(raw) == toks
  {
    assert Aliases(raw) == [];
  }

  /** Glue: the query tokens of an upper-case text that triggers only the UNIAR alias. */
  lemma UniarQuery(raw: string, toks: seq<string>)
    requires Tokenize(raw) == toks && Upper(raw) == raw
    requires Contains(raw, "POLOAR") && !Contains(raw, "WEBCONTINENTAL")
    ensures QueryTokens(raw) == toks + ["UNIAR"]
  {
    assert Aliases(raw) == ["UNIAR"];
  }

  lemma KeyAText()
    ensures "LOJA" + " " + ['A'] == "LOJA A"
  {
  }

  lemma KeyATokens()
    ensures Tokenize("LOJA A") == ["LOJA"]
  {
    assert IsToken("LOJA");
    WordLetter("LOJA", 'A');
    KeyAText();
  }


  lemma KeyBText()
    ensures "LOJA" + " " + ['B'] + " " + "STR" == "LOJA B STR"
  {
  }

  lemma KeyBTokens()
    ensures Tokenize("LOJA B STR") == ["LOJA", "STR"]
  {
    assert IsToken("LOJA") && IsToken("STR");
    WordLetterWord("LOJA", 'B', "STR");
    KeyBText();
  }


  lemma PairKeyTokens()
    ensures BuildIndex(["LOJA A", "LOJA B STR"])
            == [KeyTokens("LOJA A", ["LOJA"]), KeyTokens("LOJA B STR", ["LOJA", "STR"])]
  {
    KeyATokens();
    KeyBTokens();
    Index2("LOJA A", "LOJA B STR", ["LOJA"], ["LOJA", "STR"]);
  }

  // --- the query "LOJA POLOAR X"

  lemma PoloarUpper() ensures Upper("LOJA POLOAR X") == "LOJA POLOAR X" {}

  lemma PoloarHasPoloar()
    ensures Contains("LOJA POLOAR X", "POLOAR")
  {
    ContainsAt("LOJA POLOAR X", "POLOAR", 5);
  }

  lemma PoloarNoBrand()
    ensures !Contains("LOJA POLOAR X", "WEBCONTINENTAL")
  {
    TooShort("LOJA POLOAR X", "WEBCONTINENTAL");
  }

  lemma PoloarText()
    ensures "LOJA" + " " + "POLOAR" + " " + ['X'] == "LOJA POLOAR X"
  {
  }

  lemma PoloarTokens()
    ensures Tokenize("LOJA POLOAR X") == ["LOJA", "POLOAR"]
  {
    assert IsToken("LOJA") && IsToken("POLOAR");
    Words2Letter("LOJA", "POLOAR", 'X');
    PoloarText();
  }

  lemma PoloarQuery()
    ensures QueryTokens("LOJA POLOAR X") == ["LOJA", "POLOAR", "UNIAR"]
  {
    PoloarTokens();
    PoloarUpper();
    PoloarHasPoloar();
    PoloarNoBrand();
    UniarQuery("LOJA POLOAR X", ["LOJA", "POLOAR"]);
  }

  lemma PoloarScoreA()
    ensures Score2(["LOJA", "POLOAR", "UNIAR"], ["LOJA"]) == Threshold2
    ensures !Perfect(["LOJA", "POLOAR", "UNIAR"], ["LOJA"])
  {
    assert Overlap(["LOJA", "POLOAR", "UNIAR"], ["LOJA"]) == 1;
  }

  lemma PoloarScoreB()
    ensures Score2(["LOJA", "POLOAR", "UNIAR"], ["LOJA", "STR"]) == Threshold2
    ensures !Perfect(["LOJA", "POLOAR", "UNIAR"], ["LOJA", "STR"])
  {
    var k := ["LOJA", "STR"];
    assert k[1..] == ["STR"];
    assert Overlap(["LOJA", "POLOAR", "UNIAR"], ["STR"]) == 0;
    assert Overlap(["LOJA", "POLOAR", "UNIAR"], k) == 1;
  }

  lemma PoloarScores()
    ensures MatchIn(["LOJA", "POLOAR", "UNIAR"],
                    [KeyTokens("LOJA A", ["LOJA"]), KeyTokens("LOJA B STR", ["LOJA", "STR"])])
            == Some("LOJA A")
  {
    PoloarScoreA();
    PoloarScoreB();
    TwoKeys(["LOJA", "POLOAR", "UNIAR"], KeyTokens("LOJA A", ["LOJA"]), KeyTokens("LOJA B STR", ["LOJA", "STR"]));
  }

  /**
   * "LOJA POLOAR X" gains the UNIAR alias, but neither key carries UNIAR: both keys score the
   * threshold on the shared brand token, and the tie goes to the earlier key.
   */
  lemma PoloarTie()
    ensures MatchStore("LOJA POLOAR X", BuildIndex(["LOJA A", "LOJA B STR"])) == Some("LOJA A")
  {
    PairKeyTokens();
    PoloarQuery();
    PoloarTokens();
    PoloarScores();
    MatchVia("LOJA POLOAR X", ["LOJA A", "LOJA B STR"], ["LOJA", "POLOAR", "UNIAR"],
             [KeyTokens("LOJA A", ["LOJA"]), KeyTokens("LOJA B STR", ["LOJA", "STR"])]);
  }

  // --- the query "UNKNOWN PLACE"

  lemma UnknownUpper() ensures Upper("UNKNOWN PLACE") == "UNKNOWN PLACE" {}

  lemma UnknownNoPoloar() ensures !Contains("UNKNOWN PLACE", "POLOAR") { Lacks("UNKNOWN PLACE", "POLOAR", 'R'); }
  lemma UnknownNoStr() ensures !Contains("UNKNOWN PLACE", "STR") { Lacks("UNKNOWN PLACE", "STR", 'S'); }
  lemma UnknownNoBrand() ensures !Contains("UNKNOWN PLACE", "WEBCONTINENTAL") { TooShort("UNKNOWN PLACE", "WEBCONTINENTAL"); }

  lemma UnknownText()
    ensures "UNKNOWN" + " " + "PLACE" == "UNKNOWN PLACE"
  {
  }

  lemma UnknownTokens()
    ensures Tokenize("UNKNOWN PLACE") == ["UNKNOWN", "PLACE"]
  {
    assert IsToken("UNKNOWN") && IsToken("PLACE");
    Words2("UNKNOWN", "PLACE");
    UnknownText();
  }


  lemma UnknownQuery()
    ensures QueryTokens("UNKNOWN PLACE") == ["UNKNOWN", "PLACE"]
  {
    UnknownTokens();
    UnknownUpper();
    UnknownNoPoloar();
    UnknownNoStr();
    UnknownNoBrand();
    PlainQuery("UNKNOWN PLACE", ["UNKNOWN", "PLACE"]);
  }

  lemma UnknownScoreA()
    ensures Score2(["UNKNOWN", "PLACE"], ["LOJA"]) == 0 && !Perfect(["UNKNOWN", "PLACE"], ["LOJA"])
  {
    assert Overlap(["UNKNOWN", "PLACE"], ["LOJA"]) == 0;
  }

  lemma UnknownScoreB()
    ensures Score2(["UNKNOWN", "PLACE"], ["LOJA", "STR"]) == 0 && !Perfect(["UNKNOWN", "PLACE"], ["LOJA", "STR"])
  {
    var k := ["LOJA", "STR"];
    assert k[1..] == ["STR"];
    assert Overlap(["UNKNOWN", "PLACE"], ["STR"]) == 0;
    assert Overlap(["UNKNOWN", "PLACE"], k) == 0;
  }

  lemma UnknownScores()
    ensures MatchIn(["UNKNOWN", "PLACE"],
                    [KeyTokens("LOJA A", ["LOJA"]), KeyTokens("LOJA B STR", ["LOJA", "STR"])])
            == None
  {
    UnknownScoreA();
    UnknownScoreB();
    TwoKeys(["UNKNOWN", "PLACE"], KeyTokens("LOJA A", ["LOJA"]), KeyTokens("LOJA B STR", ["LOJA", "STR"]));
  }

  /** A store sharing no token with any key is not matched. */
  lemma UnknownMiss()
    ensures MatchStore("UNKNOWN PLACE", BuildIndex(["LOJA A", "LOJA B STR"])) == None
  {
    PairKeyTokens();
    UnknownQuery();
    UnknownTokens();
    UnknownScores();
    MatchVia("UNKNOWN PLACE", ["LOJA A", "LOJA B STR"], ["UNKNOWN", "PLACE"],
             [KeyTokens("LOJA A", ["LOJA"]), KeyTokens("LOJA B STR", ["LOJA", "STR"])]);
  }
}
