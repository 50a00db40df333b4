/**
 * The store-name matcher of the manager dashboard (AdminDashboard.jsx, `tokenize`,
 * `tokenizedKeys` and `findMatch`): free-text store names are normalised into tokens and scored
 * against the tokens of every directory key.
 *
 * The source's scores are multiples of 0.5; here every score is doubled so that it is a natural
 * number: one shared token counts 2, the brand boost 3 (1.5), the alias boost 4 (2) and the
 * acceptance threshold is 5 (2.5).
 */
module Matcher {
  import opened Wrappers
  import opened Text
  import Seqs

  const BrandBoost2: nat := 3
  const AliasBoost2: nat := 4
  const Threshold2: nat := 5

  predicate IsTokenChar(c: char) {
    'A' <= c <= 'Z' || '0' <= c <= '9'
  }

  /** A combining diacritical mark, U+0300..U+036F, deleted after decomposition. */
  predicate IsMark(c: char) {
    '\U{0300}' <= c <= '\U{036F}'
  }

  /** The base letter NFD decomposition leaves once the marks are removed (upper-case Latin-1 letters). */
  function StripAccent(c: char): char {
    if '\U{00C0}' <= c <= '\U{00C5}' then 'A'
    else if c == '\U{00C7}' then 'C'
    else if '\U{00C8}' <= c <= '\U{00CB}' then 'E'
    else if '\U{00CC}' <= c <= '\U{00CF}' then 'I'
    else if c == '\U{00D1}' then 'N'
    else if '\U{00D2}' <= c <= '\U{00D6}' then 'O'
    else if '\U{00D9}' <= c <= '\U{00DC}' then 'U'
    else if c == '\U{00DD}' || c == '\U{0178}' then 'Y'
    else c
  }

  /** Upper-case, strip the accent, and turn anything outside `[A-Z0-9]` into a space. */
  function CleanChar(c: char): (r: char)
    ensures IsTokenChar(r) || r == ' '
  {
    var b := StripAccent(UpperChar(c));
    if IsTokenChar(b) then b else ' '
  }

  /** `toUpperCase().normalize('NFD').replace(/[̀-ͯ]/g, "").replace(/[^A-Z0-9]/g, ' ')` */
  function Clean(s: string): (r: string)
    ensures forall i :: 0 <= i < |r| ==> IsTokenChar(r[i]) || r[i] == ' '
  {
    if s == [] then []
    else (if IsMark(s[0]) then [] else [CleanChar(s[0])]) + Clean(s[1..])
  }

  lemma CleanCharIn(s: string, c: char)
    requires c in Clean(s)
    ensures IsTokenChar(c) || c == ' '
  {
    var k :| 0 <= k < |Clean(s)| && Clean(s)[k] == c;
  }

  predicate IsToken(t: string) {
    |t| >= 2 && forall j :: 0 <= j < |t| ==> IsTokenChar(t[j])
  }

  /** `filter(t => t.length > 1)` */
  function KeepLong(xs: seq<string>): (r: seq<string>)
    ensures forall i :: 0 <= i < |r| ==> |r[i]| >= 2 && r[i] in xs
  {
    if xs == [] then []
    else (if |xs[0]| > 1 then [xs[0]] else []) + KeepLong(xs[1..])
  }

  /** The split-and-filter chain without the empty-input shortcut. */
  function Tok(s: string): seq<string> {
    KeepLong(Split(Clean(s), ' '))
  }

  /**
   * `tokenize`: `[]` for the empty string; otherwise the maximal runs of `[A-Z0-9]` of the
   * cleaned string that are at least two characters long, left to right.
   */
  function Tokenize(s: string): (r: seq<string>)
    ensures s == "" ==> r == []
    ensures forall i :: 0 <= i < |r| ==> IsToken(r[i])
  {
    if s == "" then []
    else
      var fields := Split(Clean(s), ' ');
      var r := KeepLong(fields);
      assert forall i :: 0 <= i < |r| ==> IsToken(r[i]) by {
        forall i | 0 <= i < |r| ensures IsToken(r[i]) {
          var k :| 0 <= k < |fields| && fields[k] == r[i];
          forall j | 0 <= j < |r[i]| ensures IsTokenChar(r[i][j]) {
            var c := r[i][j];
            assert c in fields[k];
            CleanCharIn(s, c);
          }
        }
      }
      r
  }

  lemma TokenizeIsTok(s: string)
    ensures Tokenize(s) == Tok(s)
  {
    if s == "" {
      assert Split(Clean(s), ' ') == [[]];
    }
  }

  lemma CleanCons(s: string)
    requires s != []
    ensures Clean(s) == (if IsMark(s[0]) then [] else [CleanChar(s[0])]) + Clean(s[1..])
  {
  }

  lemma {:induction false} CleanConcat(a: string, b: string)
    ensures Clean(a + b) == Clean(a) + Clean(b)
  {
    if a == [] {
      assert a + b == b;
    } else {
      var head := if IsMark(a[0]) then [] else [CleanChar(a[0])];
      assert (a + b)[0] == a[0];
      assert (a + b)[1..] == a[1..] + b;
      CleanCons(a + b);
      CleanCons(a);
      CleanConcat(a[1..], b);
      Seqs.ConcatAssoc(head, Clean(a[1..]), Clean(b));
    }
  }

  lemma KeepLongCons(xs: seq<string>)
    requires xs != []
    ensures KeepLong(xs) == (if |xs[0]| > 1 then [xs[0]] else []) + KeepLong(xs[1..])
  {
  }

  lemma {:induction false} KeepLongConcat(xs: seq<string>, ys: seq<string>)
    ensures KeepLong(xs + ys) == KeepLong(xs) + KeepLong(ys)
  {
    if xs == [] {
      assert xs + ys == ys;
    } else {
      var head := if |xs[0]| > 1 then [xs[0]] else [];
      assert (xs + ys)[0] == xs[0];
      assert (xs + ys)[1..] == xs[1..] + ys;
      KeepLongCons(xs + ys);
      KeepLongCons(xs);
      KeepLongConcat(xs[1..], ys);
      Seqs.ConcatAssoc(head, KeepLong(xs[1..]), KeepLong(ys));
    }
  }

  lemma CleanSpace()
    ensures Clean(" ") == " "
  {
    CleanCons(" ");
    assert CleanChar(' ') == ' ';
  }

  lemma CleanSpaceJoin(a: string, b: string)
    ensures Clean(a + " " + b) == Clean(a) + [' '] + Clean(b)
  {
    Seqs.ConcatAssoc(a, " ", b);
    CleanConcat(a, " " + b);
    CleanConcat(" ", b);
    CleanSpace();
    Seqs.ConcatAssoc(Clean(a), [' '], Clean(b));
  }

  /** Tokenisation is order preserving: the tokens of `a + " " + b` are those of `a`, then those of `b`. */
  lemma TokenizeConcat(a: string, b: string)
    ensures Tokenize(a + " " + b) == Tokenize(a) + Tokenize(b)
  {
    TokenizeIsTok(a);
    TokenizeIsTok(b);
    TokenizeIsTok(a + " " + b);
    CleanSpaceJoin(a, b);
    SplitConcat(Clean(a), Clean(b), ' ');
    KeepLongConcat(Split(Clean(a), ' '), Split(Clean(b), ' '));
  }

  lemma {:induction false} CleanTokenChars(s: string)
    requires forall i :: 0 <= i < |s| ==> IsTokenChar(s[i]) || s[i] == ' '
    ensures Clean(s) == s
  {
    if s != [] {
      CleanTokenChars(s[1..]);
      assert [s[0]] + s[1..] == s;
    }
  }

  /** A run of `[A-Z0-9]` characters, long enough to be a token or not. */
  predicate IsWord(t: string) {
    |t| >= 1 && forall j :: 0 <= j < |t| ==> IsTokenChar(t[j])
  }

  lemma {:induction false} JoinChars(ts: seq<string>)
    requires forall i :: 0 <= i < |ts| ==> IsWord(ts[i])
    ensures forall i :: 0 <= i < |Join(ts, ' ')| ==> IsTokenChar(Join(ts, ' ')[i]) || Join(ts, ' ')[i] == ' '
    ensures ts != [] ==> |Join(ts, ' ')| >= 1
  {
    if |ts| > 1 {
      JoinChars(ts[1..]);
      var j := Join(ts, ' ');
      assert j == ts[0] + [' '] + Join(ts[1..], ' ');
      assert forall i :: 0 <= i < |j| ==> IsTokenChar(j[i]) || j[i] == ' ' by {
        forall i | 0 <= i < |j| ensures IsTokenChar(j[i]) || j[i] == ' ' {
          if i < |ts[0]| {
            assert j[i] == ts[0][i];
          } else if i > |ts[0]| {
            assert j[i] == Join(ts[1..], ' ')[i - |ts[0]| - 1];
          }
        }
      }
    }
  }

  lemma {:induction false} KeepLongAllLong(xs: seq<string>)
    requires forall i :: 0 <= i < |xs| ==> |xs[i]| >= 2
    ensures KeepLong(xs) == xs
  {
    if xs != [] {
      KeepLongAllLong(xs[1..]);
    }
  }

  /** Words joined with single spaces tokenize to the words of two characters or more. */
  lemma TokenizeWords(ws: seq<string>)
    requires forall i :: 0 <= i < |ws| ==> IsWord(ws[i])
    ensures Tokenize(Join(ws, ' ')) == KeepLong(ws)
  {
    if ws != [] {
      JoinChars(ws);
      CleanTokenChars(Join(ws, ' '));
      assert forall i :: 0 <= i < |ws| ==> ' ' !in ws[i] by {
        forall i | 0 <= i < |ws| ensures ' ' !in ws[i] {
          assert forall j :: 0 <= j < |ws[i]| ==> ws[i][j] != ' ';
        }
      }
      SplitJoin(ws, ' ');
    }
  }

  /** Tokens joined with single spaces tokenize back to themselves. */
  lemma TokenizeJoin(ts: seq<string>)
    requires forall i :: 0 <= i < |ts| ==> IsToken(ts[i])
    ensures Tokenize(Join(ts, ' ')) == ts
  {
    TokenizeWords(ts);
    KeepLongAllLong(ts);
  }

  /** A single token is tokenized to itself. */
  lemma TokenizeWord(w: string)
    requires IsToken(w)
    ensures Tokenize(w) == [w]
  {
    TokenizeJoin([w]);
  }

  /** Normalisation is idempotent: re-joining the tokens with single spaces yields the same tokens. */
  lemma TokenizeIdempotent(s: string)
    ensures Tokenize(Join(Tokenize(s), ' ')) == Tokenize(s)
  {
    TokenizeJoin(Tokenize(s));
  }

  /** The alias tokens appended to a query, decided on the upper-cased raw text (not its tokens). */
  function Aliases(upperRaw: string): seq<string> {
    (if Contains(upperRaw, "POLOAR") || Contains(upperRaw, "STR") then ["UNIAR"] else [])
    + (if Contains(upperRaw, "WEBCONTINENTAL") then ["TRAVENIDAESSA", "WEBCONTINENTAL"] else [])
  }

  /** The query tokens `findMatch` scores with once it has passed its two `null` exits. */
  function QueryTokens(raw: string): seq<string> {
    Tokenize(raw) + Aliases(Upper(raw))
  }

  /**
   * Alias injection only appends: the plain tokens come first, then `UNIAR` exactly when the
   * upper-cased text contains `POLOAR` or `STR`, then `TRAVENIDAESSA` and `WEBCONTINENTAL`
   * exactly when it contains `WEBCONTINENTAL`.
   */
  lemma AliasesAppendOnly(raw: string)
    ensures var q := QueryTokens(raw); var t := Tokenize(raw); var u := Upper(raw);
      && q[..|t|] == t
      && var extra := q[|t|..];
      && (|extra| >= 1 && extra[0] == "UNIAR" <==> Contains(u, "POLOAR") || Contains(u, "STR"))
      && (Contains(u, "WEBCONTINENTAL") <==> |extra| >= 2 && extra[|extra| - 2..] == ["TRAVENIDAESSA", "WEBCONTINENTAL"])
      && |extra| == (if Contains(u, "POLOAR") || Contains(u, "STR") then 1 else 0) + (if Contains(u, "WEBCONTINENTAL") then 2 else 0)
  {
  }

  /** A directory key with its tokens, as `tokenizedKeys` holds it. */
  datatype KeyTokens = KeyTokens(original: string, tokens: seq<string>)

  /** `storeKeys.map(k => ({ original: k, tokens: tokenize(k) }))`, in key order. */
  function BuildIndex(keys: seq<string>): (idx: seq<KeyTokens>)
    ensures |idx| == |keys|
    ensures forall i :: 0 <= i < |keys| ==> idx[i].original == keys[i] && idx[i].tokens == Tokenize(keys[i])
  {
    seq(|keys|, i requires 0 <= i < |keys| => KeyTokens(keys[i], Tokenize(keys[i])))
  }

  /** `keyObj.tokens.filter(t => logTokens.includes(t)).length`: key tokens counted with multiplicity. */
  function Overlap(q: seq<string>, keyToks: seq<string>): (n: nat)
    ensures n <= |keyToks|
  {
    if keyToks == [] then 0
    else (if keyToks[0] in q then 1 else 0) + Overlap(q, keyToks[1..])
  }

  /** The overlap is zero exactly when no key token occurs among the query tokens. */
  lemma {:induction false} OverlapZero(q: seq<string>, keyToks: seq<string>)
    ensures Overlap(q, keyToks) == 0 <==> forall j :: 0 <= j < |keyToks| ==> keyToks[j] !in q
  {
    if keyToks != [] {
      OverlapZero(q, keyToks[1..]);
      assert forall j :: 1 <= j < |keyToks| ==> keyToks[j] == keyToks[1..][j - 1];
    }
  }

  /** Twice the source's score of one key. */
  function Score2(q: seq<string>, keyToks: seq<string>): nat {
    2 * Overlap(q, keyToks)
    + (if |q| > 0 && q[0] != "" && q[0] in keyToks then BrandBoost2 else 0)
    + (if "UNIAR" in q && "UNIAR" in keyToks then AliasBoost2 else 0)
  }

  /** The "perfect subset" test: it compares counts only. */
  predicate Perfect(q: seq<string>, keyToks: seq<string>) {
    Overlap(q, keyToks) == |q| && Overlap(q, keyToks) > 0
  }

  function FirstPerfect(q: seq<string>, idx: seq<KeyTokens>): (r: Option<nat>)
    ensures r.Some? ==> r.value < |idx| && Perfect(q, idx[r.value].tokens)
                        && forall j :: 0 <= j < r.value ==> !Perfect(q, idx[j].tokens)
    ensures r.None? ==> forall j :: 0 <= j < |idx| ==> !Perfect(q, idx[j].tokens)
  {
    if idx == [] then None
    else if Perfect(q, idx[0].tokens) then Some(0)
    else
      var r := FirstPerfect(q, idx[1..]);
      if r.Some? then Some(r.value + 1) else None
  }

  /**
   * The `maxScore`/`bestMatch` pair after the loop has scored `idx`: a key replaces the best
   * so far only with a strictly greater score, so the result is the earliest key with the
   * largest positive score.
   */
  function Best(q: seq<string>, idx: seq<KeyTokens>): (r: (nat, Option<nat>))
    ensures r.1.Some? ==> r.1.value < |idx|
  {
    if idx == [] then (0, None)
    else
      var prev := Best(q, idx[..|idx| - 1]);
      var s := Score2(q, idx[|idx| - 1].tokens);
      if s > prev.0 then (s, Some(|idx| - 1)) else prev
  }

  /** `Best` holds the largest score, and the earliest key reaching it when that score is positive. */
  lemma {:induction false} BestIsBest(q: seq<string>, idx: seq<KeyTokens>)
    ensures var r := Best(q, idx);
      && (r.1.None? ==> r.0 == 0)
      && (r.1.Some? ==> r.0 > 0 && Score2(q, idx[r.1.value].tokens) == r.0
                        && forall j :: 0 <= j < r.1.value ==> Score2(q, idx[j].tokens) < r.0)
      && forall j :: 0 <= j < |idx| ==> Score2(q, idx[j].tokens) <= r.0
  {
    if idx != [] {
      var init := idx[..|idx| - 1];
      BestIsBest(q, init);
      assert forall j :: 0 <= j < |init| ==> init[j] == idx[j];
    }
  }

  /** The matcher on query tokens: the first perfect key, else the best key if its score reaches 2.5. */
  function MatchIn(q: seq<string>, idx: seq<KeyTokens>): (r: Option<string>)
    ensures r.Some? ==> exists i :: 0 <= i < |idx| && idx[i].original == r.value
  {
    match FirstPerfect(q, idx)
    case Some(i) => Some(idx[i].original)
    case None =>
      var best := Best(q, idx);
      if best.0 >= Threshold2 && best.1.Some? then Some(idx[best.1.value].original) else None
  }

  /**
   * `findMatch`: `null` for an empty string or one without tokens; otherwise the key the scan
   * settles on, which is always one of the directory's keys.
   */
  function MatchStore(raw: string, idx: seq<KeyTokens>): (r: Option<string>)
    ensures raw == "" || Tokenize(raw) == [] ==> r.None?
    ensures r.Some? ==> exists i :: 0 <= i < |idx| && idx[i].original == r.value
  {
    if raw == "" || Tokenize(raw) == [] then None else MatchIn(QueryTokens(raw), idx)
  }

  /** One more key scored: the pair `Best` after it, from the pair before it. */
  lemma BestSnoc(q: seq<string>, idx: seq<KeyTokens>, i: nat)
    requires i < |idx|
    ensures var prev := Best(q, idx[..i]); var s := Score2(q, idx[i].tokens);
      Best(q, idx[..i + 1]) == if s > prev.0 then (s, Some(i)) else prev
  {
    assert idx[..i + 1][..i] == idx[..i];
  }

  lemma FirstPerfectAt(q: seq<string>, idx: seq<KeyTokens>, i: nat)
    requires i < |idx| && Perfect(q, idx[i].tokens)
    requires forall j :: 0 <= j < i ==> !Perfect(q, idx[j].tokens)
    ensures FirstPerfect(q, idx) == Some(i)
  {
  }

  lemma NoPerfectMatch(q: seq<string>, idx: seq<KeyTokens>)
    requires forall j :: 0 <= j < |idx| ==> !Perfect(q, idx[j].tokens)
    ensures var best := Best(q, idx);
      MatchIn(q, idx) == if best.0 >= Threshold2 && best.1.Some? then Some(idx[best.1.value].original) else None
  {
  }

  /** findMatch as the source runs it: push the aliases, then one pass with an early return. */
  method FindMatch(rawStore: string, tokenizedKeys: seq<KeyTokens>) returns (r: Option<string>)
    ensures r == MatchStore(rawStore, tokenizedKeys)
  {
    if rawStore == "" {
      return None;
    }
    var logTokens := Tokenize(rawStore);
    if |logTokens| == 0 {
      return None;
    }
    var upperRaw := Upper(rawStore);
    if Contains(upperRaw, "POLOAR") || Contains(upperRaw, "STR") {
      logTokens := logTokens + ["UNIAR"];
    }
    if Contains(upperRaw, "WEBCONTINENTAL") {
      logTokens := logTokens + ["TRAVENIDAESSA"];
      logTokens := logTokens + ["WEBCONTINENTAL"];
    }
    assert logTokens == QueryTokens(rawStore);

    r := ScanKeys(logTokens, tokenizedKeys);
  }

  /** The score of one key: twice the overlap, plus the brand and alias boosts. */
  method ScoreKey(logTokens: seq<string>, keyToks: seq<string>) returns (intersection: nat, score: nat)
    requires |logTokens| > 0
    ensures intersection == Overlap(logTokens, keyToks) && score == Score2(logTokens, keyToks)
  {
    intersection := Overlap(logTokens, keyToks);
    score := 2 * intersection;
    if logTokens[0] != "" && logTokens[0] in keyToks {
      score := score + BrandBoost2;
    }
    if "UNIAR" in logTokens && "UNIAR" in keyToks {
      score := score + AliasBoost2;
    }
  }

  /**
   * The scoring loop of findMatch over the query tokens: returns at the first perfect key, else
   * the best key when its score reaches the threshold.
   */
  method ScanKeys(logTokens: seq<string>, tokenizedKeys: seq<KeyTokens>) returns (r: Option<string>)
    requires |logTokens| > 0
    ensures r == MatchIn(logTokens, tokenizedKeys)
  {
    var bestMatch: Option<KeyTokens> := None;
    var maxScore: nat := 0;
    ghost var bestAt: Option<nat> := None;
    var i := 0;
    while i < |tokenizedKeys|
      invariant 0 <= i <= |tokenizedKeys|
      invariant (maxScore, bestAt) == Best(logTokens, tokenizedKeys[..i])
      invariant bestMatch == if bestAt.Some? then Some(tokenizedKeys[bestAt.value]) else None
      invariant forall j :: 0 <= j < i ==> !Perfect(logTokens, tokenizedKeys[j].tokens)
    {
      BestSnoc(logTokens, tokenizedKeys, i);
      var keyObj := tokenizedKeys[i];
      var intersection, score := ScoreKey(logTokens, keyObj.tokens);
      if score > maxScore {
        maxScore := score;
        bestMatch := Some(keyObj);
        bestAt := Some(i);
      }
      if intersection == |logTokens| && intersection > 0 {
        FirstPerfectAt(logTokens, tokenizedKeys, i);
        return Some(keyObj.original);
      }
      assert !Perfect(logTokens, tokenizedKeys[i].tokens);
      i := i + 1;
    }
    assert tokenizedKeys[..i] == tokenizedKeys;
    NoPerfectMatch(logTokens, tokenizedKeys);
    if maxScore >= Threshold2 {
      return if bestMatch.Some? then Some(bestMatch.value.original) else None;
    }
    return None;
  }

  // ---------------------------------------------------------------------------------------------
  // Properties of the matcher

  /**
   * Short-circuit: the first key in key order whose overlap count equals the number of query
   * tokens is returned, and the keys after it play no part.
   */
  lemma ShortCircuit(q: seq<string>, idx: seq<KeyTokens>, i: nat, later: seq<KeyTokens>)
    requires i < |idx| && Perfect(q, idx[i].tokens)
    requires forall j :: 0 <= j < i ==> !Perfect(q, idx[j].tokens)
    ensures MatchIn(q, idx) == Some(idx[i].original)
    ensures MatchIn(q, idx[..i + 1] + later) == Some(idx[i].original)
  {
    var idx' := idx[..i + 1] + later;
    assert idx'[i] == idx[i];
    assert forall j :: 0 <= j < i ==> idx'[j] == idx[j];
  }

  /** The earliest key with the largest score, when that score reaches the threshold. */
  ghost predicate IsWinner(q: seq<string>, idx: seq<KeyTokens>, w: nat) {
    && w < |idx|
    && Score2(q, idx[w].tokens) >= Threshold2
    && (forall j :: 0 <= j < w ==> Score2(q, idx[j].tokens) < Score2(q, idx[w].tokens))
    && (forall j :: 0 <= j < |idx| ==> Score2(q, idx[j].tokens) <= Score2(q, idx[w].tokens))
  }

  /**
   * Without a short-circuit the matcher returns a key exactly when some key scores at least 2.5,
   * and then it returns the earliest key with the largest score: ties go to the earlier key.
   */
  lemma BestWins(q: seq<string>, idx: seq<KeyTokens>)
    requires forall j :: 0 <= j < |idx| ==> !Perfect(q, idx[j].tokens)
    ensures MatchIn(q, idx).Some? <==> exists j :: 0 <= j < |idx| && Score2(q, idx[j].tokens) >= Threshold2
    ensures forall w: nat :: IsWinner(q, idx, w) ==> MatchIn(q, idx) == Some(idx[w].original)
    ensures MatchIn(q, idx).Some? ==> exists w: nat :: IsWinner(q, idx, w) && MatchIn(q, idx) == Some(idx[w].original)
  {
    var best := Best(q, idx);
    BestIsBest(q, idx);
    if best.1.Some? {
      var b := best.1.value;
      assert IsWinner(q, idx, b) <==> best.0 >= Threshold2;
      forall w: nat | IsWinner(q, idx, w) ensures w == b {
      }
    }
  }

  lemma OverlapPositive(q: seq<string>, keyToks: seq<string>, t: string)
    requires t in q && t in keyToks
    ensures Overlap(q, keyToks) >= 1
  {
    OverlapZero(q, keyToks);
  }

  /**
   * A key containing the first query token scores at least 2.5 (one shared token plus the brand
   * boost), so the matcher then always returns some key.
   */
  lemma BrandGuarantee(raw: string, idx: seq<KeyTokens>, i: nat)
    requires raw != "" && Tokenize(raw) != []
    requires i < |idx| && QueryTokens(raw)[0] in idx[i].tokens
    ensures Score2(QueryTokens(raw), idx[i].tokens) >= Threshold2
    ensures MatchStore(raw, idx).Some?
  {
    var q := QueryTokens(raw);
    assert q[0] == Tokenize(raw)[0] && IsToken(q[0]);
    OverlapPositive(q, idx[i].tokens, q[0]);
    if FirstPerfect(q, idx).None? {
      BestWins(q, idx);
    }
  }

  lemma TokenizeEmpty(s: string)
    requires Tokenize(s) != []
    ensures s != ""
  {
  }

  /**
   * Over an index built from directory keys, a key the matcher returns is a directory key and is
   * never the empty string, so `matchedKey ? storeToClientMap[matchedKey] : 'N/A'` takes its
   * first branch exactly when a key was found.
   */
  lemma MatchIsKey(raw: string, keys: seq<string>)
    ensures var r := MatchStore(raw, BuildIndex(keys)); r.Some? ==> r.value in keys && r.value != ""
  {
    var idx := BuildIndex(keys);
    if MatchStore(raw, idx).Some? {
      var i := MatchedKey(QueryTokens(raw), idx);
      TokenizeEmpty(keys[i]);
    }
  }

  /** The key a scan settles on shares a token with the query, so it has tokens. */
  lemma MatchedKey(q: seq<string>, idx: seq<KeyTokens>) returns (i: nat)
    requires MatchIn(q, idx).Some?
    ensures i < |idx| && idx[i].original == MatchIn(q, idx).value && idx[i].tokens != []
  {
    var p := FirstPerfect(q, idx);
    if p.Some? {
      i := p.value;
      assert Overlap(q, idx[i].tokens) > 0;
    } else {
      var best := Best(q, idx);
      BestIsBest(q, idx);
      i := best.1.value;
      assert Score2(q, idx[i].tokens) > 0;
    }
  }

  /**
   * The perfect-subset test compares counts only. A key that repeats one query token as often as
   * the query has tokens passes it although another query token is missing from the key; a query
   * that repeats a token fails it against a key holding every query token once.
   */
  lemma PerfectCountsOnly()
    ensures Perfect(["AB", "CD"], ["AB", "AB"]) && "CD" !in ["AB", "AB"]
    ensures !Perfect(["AB", "AB"], ["AB"])
    ensures MatchIn(["AB", "CD"], [KeyTokens("AB AB", ["AB", "AB"]), KeyTokens("AB CD", ["AB", "CD"])]) == Some("AB AB")
  {
    var idx := [KeyTokens("AB AB", ["AB", "AB"]), KeyTokens("AB CD", ["AB", "CD"])];
    ShortCircuit(["AB", "CD"], idx, 0, []);
  }

  lemma {:induction false} CleanUpper(s: string)
    ensures Clean(Upper(s)) == Clean(s)
  {
    if s != [] {
      assert Upper(s)[1..] == Upper(s[1..]);
      CleanUpper(s[1..]);
    }
  }

  /**
   * The matcher ignores case: upper-casing the raw text first (as the dashboard does before it
   * calls findMatch) changes neither the tokens nor the aliases, hence not the result.
   */
  lemma MatchIgnoresCase(raw: string, idx: seq<KeyTokens>)
    ensures MatchStore(Upper(raw), idx) == MatchStore(raw, idx)
  {
    CleanUpper(raw);
    UpperIdempotent(raw);
    assert Tokenize(Upper(raw)) == Tokenize(raw);
  }

  /** Text made only of `[A-Z0-9]` and spaces is its own upper case. */
  lemma UpperPlain(s: string)
    requires forall i :: 0 <= i < |s| ==> IsTokenChar(s[i]) || s[i] == ' '
    ensures Upper(s) == s
  {
  }
}
