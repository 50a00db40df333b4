/**
 * The attribution on a two-store directory: an exact hit, a fuzzy hit decided by the tie rule,
 * and a store that stays unmatched. The directory maps "LOJA A" to "C1" and "LOJA B STR" to "C2".
 */
module Walkthrough {
  import opened Wrappers
  import opened Ordered
  import opened Directory
  import opened Matcher
  import opened Dashboard
  import opened Scenarios

  /** Glue: two writes under distinct keys. */
  lemma TwoEntries(k1: string, v1: string, k2: string, v2: string)
    requires k1 != k2
    ensures FromEntries([Some((k1, v1)), Some((k2, v2))]) == OMap([k1, k2], map[k1 := v1, k2 := v2])
  {
    var es := [Some((k1, v1)), Some((k2, v2))];
    assert es[..1] == [Some((k1, v1))] && es[..1][..0] == [];
    var d1 := FromEntries(es[..1]);
    assert FromEntries(es[..1][..0]) == Empty();
    assert [] + [k1] == [k1];
    assert d1.keys == [k1] && d1.vals == map[k1 := v1];
    assert FromEntries(es) == Put(d1, k2, v2);
    assert map[k1 := v1][k2 := v2] == map[k1 := v1, k2 := v2];
  }

  /** Glue: a store that is not a key, attributed through the fuzzy match. */
  lemma FuzzyVia(d: OMap<string>, raw: string, key: string)
    requires Valid(d) && raw != "" && Lookup(d, raw) == ""
    requires MatchStore(raw, BuildIndex(d.keys)) == Some(key)
    ensures key in d.vals
    ensures ClientOf(d, raw) == d.vals[key]
    ensures FuzzyMiss(d, raw) <==> d.vals[key] == "N/A"
  {
    MatchIsKey(raw, d.keys);
  }

  /** Glue: a store that is not a key and that the fuzzy match misses. */
  lemma MissVia(d: OMap<string>, raw: string)
    requires Valid(d) && raw != "" && Lookup(d, raw) == ""
    requires MatchStore(raw, BuildIndex(d.keys)) == None
    ensures ClientOf(d, raw) == "N/A" && FuzzyMiss(d, raw)
  {
  }

  function SampleDirectory(): (d: OMap<string>)
    ensures Valid(d)
  {
    FromEntries([Some(("LOJA A", "C1")), Some(("LOJA B STR", "C2"))])
  }

  lemma SampleShape()
    ensures SampleDirectory() == OMap(["LOJA A", "LOJA B STR"], map["LOJA A" := "C1", "LOJA B STR" := "C2"])
  {
    TwoEntries("LOJA A", "C1", "LOJA B STR", "C2");
  }

  /** A store string that is a key is attributed by the exact lookup. */
  lemma ExactHit()
    ensures ClientOf(SampleDirectory(), "LOJA A") == "C1"
  {
    SampleShape();
  }

  lemma PoloarNotKey()
    ensures Lookup(SampleDirectory(), "LOJA POLOAR X") == ""
  {
    SampleShape();
  }

  /** "LOJA POLOAR X" is no key; the fuzzy match ties both keys and the earlier one, "LOJA A", wins. */
  lemma FuzzyTie()
    ensures ClientOf(SampleDirectory(), "LOJA POLOAR X") == "C1"
    ensures !FuzzyMiss(SampleDirectory(), "LOJA POLOAR X")
  {
    var d := SampleDirectory();
    PoloarNotKey();
    SampleShape();
    PoloarTie();
    FuzzyVia(d, "LOJA POLOAR X", "LOJA A");
  }

  /** A store sharing no token with any key is attributed to `'N/A'` and listed as unmatched. */
  lemma NoMatch()
    ensures ClientOf(SampleDirectory(), "UNKNOWN PLACE") == "N/A"
    ensures FuzzyMiss(SampleDirectory(), "UNKNOWN PLACE")
  {
    var d := SampleDirectory();
    SampleShape();
    UnknownMiss();
    assert Lookup(d, "UNKNOWN PLACE") == "";
    MissVia(d, "UNKNOWN PLACE");
  }
}
