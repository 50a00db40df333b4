/**
 * Tolerant column lookup over parsed records. A record is the object a CSV reader or the
 * log endpoint produces: its field names and values in column order, which is the order
 * `Object.keys` lists them in.
 */
module Rows {
  import opened Wrappers
  import opened Text

  datatype Row = Row(fields: seq<(string, string)>)

  /** The three ways a header is compared with a candidate name in the source. */
  datatype HeaderTest =
    | LowerEquals        // `k.toLowerCase() === key.toLowerCase()`
    | TrimUpperEquals    // `k.trim().toUpperCase() === candidate`
    | TrimUpperContains  // `k.trim().toUpperCase().includes(candidate)`

  predicate HeaderMatches(test: HeaderTest, header: string, cand: string) {
    match test
    case LowerEquals => Lower(header) == Lower(cand)
    case TrimUpperEquals => Upper(Trim(header)) == cand
    case TrimUpperContains => Contains(Upper(Trim(header)), cand)
  }

  /** `Object.keys(row).find(k => ...)` together with the value stored under the key found. */
  function FirstField(fields: seq<(string, string)>, test: HeaderTest, cand: string): Option<(string, string)> {
    if fields == [] then None
    else if HeaderMatches(test, fields[0].0, cand) then Some(fields[0])
    else FirstField(fields[1..], test, cand)
  }

  /** The position of the field found: its header passes the test and no earlier header does. */
  lemma {:induction false} FirstFieldIndex(fields: seq<(string, string)>, test: HeaderTest, cand: string) returns (i: nat)
    requires FirstField(fields, test, cand).Some?
    ensures i < |fields| && fields[i] == FirstField(fields, test, cand).value && HeaderMatches(test, fields[i].0, cand)
    ensures forall j :: 0 <= j < i ==> !HeaderMatches(test, fields[j].0, cand)
  {
    if HeaderMatches(test, fields[0].0, cand) {
      i := 0;
    } else {
      var k := FirstFieldIndex(fields[1..], test, cand);
      i := k + 1;
      ShiftMisses(fields, test, cand, i);
    }
  }

  /** A header that fails the test, followed by `i - 1` more that fail, makes `i` that fail. */
  lemma ShiftMisses(fields: seq<(string, string)>, test: HeaderTest, cand: string, i: nat)
    requires 0 < i < |fields| && !HeaderMatches(test, fields[0].0, cand)
    requires forall j :: 0 <= j < i - 1 ==> !HeaderMatches(test, fields[1..][j].0, cand)
    ensures forall j :: 0 <= j < i ==> !HeaderMatches(test, fields[j].0, cand)
    ensures fields[1..][i - 1] == fields[i]
  {
    assert forall j :: 0 < j <= i ==> fields[j] == fields[1..][j - 1];
  }

  /** Nothing is found only when no header passes the test. */
  lemma {:induction false} FirstFieldNone(fields: seq<(string, string)>, test: HeaderTest, cand: string)
    requires FirstField(fields, test, cand).None?
    ensures forall i :: 0 <= i < |fields| ==> !HeaderMatches(test, fields[i].0, cand)
  {
    if fields != [] {
      FirstFieldNone(fields[1..], test, cand);
      forall i | 1 <= i < |fields| ensures !HeaderMatches(test, fields[i].0, cand) {
        assert fields[i] == fields[1..][i - 1];
      }
    }
  }

  /** A field whose header is the first to pass the test is the one found. */
  lemma {:induction false} FirstFieldAt(fields: seq<(string, string)>, test: HeaderTest, cand: string, i: nat)
    requires i < |fields| && HeaderMatches(test, fields[i].0, cand)
    requires forall k :: 0 <= k < i ==> !HeaderMatches(test, fields[k].0, cand)
    ensures FirstField(fields, test, cand) == Some(fields[i])
  {
    if i > 0 {
      assert fields[1..][i - 1] == fields[i];
      assert forall k :: 0 <= k < i - 1 ==> fields[1..][k] == fields[k + 1];
      FirstFieldAt(fields[1..], test, cand, i - 1);
    }
  }

  /** The field found is the first whose header passes the test; nothing is found when none passes. */
  lemma FirstFieldSpec(fields: seq<(string, string)>, test: HeaderTest, cand: string)
    ensures var r := FirstField(fields, test, cand);
      && (r.Some? ==> exists i :: 0 <= i < |fields| && fields[i] == r.value && HeaderMatches(test, fields[i].0, cand)
                         && forall j :: 0 <= j < i ==> !HeaderMatches(test, fields[j].0, cand))
      && (r.None? ==> forall i :: 0 <= i < |fields| ==> !HeaderMatches(test, fields[i].0, cand))
  {
    if FirstField(fields, test, cand).Some? {
      var i := FirstFieldIndex(fields, test, cand);
    } else {
      FirstFieldNone(fields, test, cand);
    }
  }

  /** `if (found) return row[found]`: an empty key found is falsy and yields nothing. */
  function Found(f: Option<(string, string)>): Option<string> {
    if f.Some? && f.value.0 != "" then Some(f.value.1) else None
  }

  /**
   * The candidate loop of getRowValue (AdminDashboard) and getValue (Home): for each candidate in
   * turn, the first header equal to it after trimming and upper-casing, else the first header
   * containing it; candidates are compared exactly as given.
   */
  function CandidateValue(row: Row, cands: seq<string>): Option<string> {
    if cands == [] then None
    else
      var exact := Found(FirstField(row.fields, TrimUpperEquals, cands[0]));
      if exact.Some? then exact
      else
        var partial := Found(FirstField(row.fields, TrimUpperContains, cands[0]));
        if partial.Some? then partial else CandidateValue(row, cands[1..])
  }

  /** The candidate loop of getVal (AdminDashboard): case-insensitive equality of names only. */
  function KeyValue(row: Row, keys: seq<string>): string {
    if keys == [] then ""
    else
      var f := Found(FirstField(row.fields, LowerEquals, keys[0]));
      if f.Some? then f.value else KeyValue(row, keys[1..])
  }

  function UpperAll(cands: seq<string>): (r: seq<string>)
    ensures |r| == |cands| && forall i :: 0 <= i < |cands| ==> r[i] == Upper(cands[i])
  {
    seq(|cands|, i requires 0 <= i < |cands| => Upper(cands[i]))
  }

  predicate HeaderHas(row: Row, cand: string) {
    exists i :: 0 <= i < |row.fields| && Contains(Upper(Trim(row.fields[i].0)), cand)
  }

  /** One candidate's turn: the exact test, then the substring test. */
  function CandidateHit(row: Row, cand: string): Option<string> {
    var exact := Found(FirstField(row.fields, TrimUpperEquals, cand));
    if exact.Some? then exact else Found(FirstField(row.fields, TrimUpperContains, cand))
  }

  lemma EmptyContainsOnlyEmpty(c: string)
    requires c != ""
    ensures !Contains(Upper(Trim("")), c)
  {
    assert Upper(Trim("")) == "";
  }

  lemma CandidateHitIff(row: Row, cand: string)
    requires cand != ""
    ensures CandidateHit(row, cand).Some? <==> HeaderHas(row, cand)
  {
    if CandidateHit(row, cand).Some? {
      HitHas(row, cand);
    }
    if HeaderHas(row, cand) {
      HasHit(row, cand);
    }
  }

  /** A header found by either test contains the candidate. */
  lemma HitHas(row: Row, cand: string)
    requires CandidateHit(row, cand).Some?
    ensures HeaderHas(row, cand)
  {
    var e := FirstField(row.fields, TrimUpperEquals, cand);
    if Found(e).Some? {
      var i := FirstFieldIndex(row.fields, TrimUpperEquals, cand);
      var u := Upper(Trim(row.fields[i].0));
      assert u == cand && StartsWith(u, cand);
    } else {
      var i := FirstFieldIndex(row.fields, TrimUpperContains, cand);
    }
  }

  /** A header containing a non-empty candidate makes one of the two tests find a non-empty header. */
  lemma HasHit(row: Row, cand: string)
    requires cand != "" && HeaderHas(row, cand)
    ensures CandidateHit(row, cand).Some?
  {
    if FirstField(row.fields, TrimUpperEquals, cand).Some? {
      FoundNonEmpty(row, TrimUpperEquals, cand);
    } else {
      var j :| 0 <= j < |row.fields| && Contains(Upper(Trim(row.fields[j].0)), cand);
      assert HeaderMatches(TrimUpperContains, row.fields[j].0, cand);
      if FirstField(row.fields, TrimUpperContains, cand).None? {
        FirstFieldNone(row.fields, TrimUpperContains, cand);
        assert false;
      }
      FoundNonEmpty(row, TrimUpperContains, cand);
    }
  }

  /** Neither test passes an empty header against a non-empty candidate. */
  lemma FoundNonEmpty(row: Row, test: HeaderTest, cand: string)
    requires cand != "" && test != LowerEquals && FirstField(row.fields, test, cand).Some?
    ensures Found(FirstField(row.fields, test, cand)).Some?
  {
    var i := FirstFieldIndex(row.fields, test, cand);
    EmptyContainsOnlyEmpty(cand);
    assert Upper(Trim("")) == "";
  }

  /**
   * The lookup finds nothing exactly when no header, trimmed and upper-cased, contains any of
   * the (non-empty) candidates: an exact match is a special case of containment.
   */
  lemma {:induction false} CandidateValueNone(row: Row, cands: seq<string>)
    requires forall j :: 0 <= j < |cands| ==> cands[j] != ""
    ensures CandidateValue(row, cands).None? <==> forall j :: 0 <= j < |cands| ==> !HeaderHas(row, cands[j])
  {
    if cands != [] {
      var c := cands[0];
      var rest := cands[1..];
      CandidateHitIff(row, c);
      CandidateValueNone(row, rest);
      if CandidateValue(row, cands).None? {
        assert CandidateHit(row, c).None? && CandidateValue(row, rest).None?;
        forall j | 0 <= j < |cands| ensures !HeaderHas(row, cands[j]) {
          if j > 0 {
            assert cands[j] == rest[j - 1];
          }
        }
      } else if CandidateHit(row, c).None? {
        assert CandidateValue(row, rest).Some?;
        var j :| 0 <= j < |rest| && HeaderHas(row, rest[j]);
        assert rest[j] == cands[j + 1];
      }
    }
  }

  /**
   * Candidates are tried in order and the exact test comes before the substring test: once no
   * header contains any earlier candidate, the first header exactly equal to candidate `j` wins,
   * even when an earlier header merely contains it.
   */
  lemma {:induction false} ExactBeforePartial(row: Row, cands: seq<string>, j: nat, i: nat)
    requires j < |cands| && i < |row.fields|
    requires forall k :: 0 <= k < j ==> cands[k] != "" && !HeaderHas(row, cands[k])
    requires row.fields[i].0 != "" && Upper(Trim(row.fields[i].0)) == cands[j]
    requires forall k :: 0 <= k < i ==> Upper(Trim(row.fields[k].0)) != cands[j]
    ensures CandidateValue(row, cands) == Some(row.fields[i].1)
  {
    SkipAll(row, cands, j);
    ExactAt(row, cands[j], i);
    assert cands[j..][0] == cands[j];
  }

  /** Candidates no header contains are passed over one after the other. */
  lemma {:induction false} SkipAll(row: Row, cands: seq<string>, j: nat)
    requires j <= |cands|
    requires forall k :: 0 <= k < j ==> cands[k] != "" && !HeaderHas(row, cands[k])
    ensures CandidateValue(row, cands) == CandidateValue(row, cands[j..])
  {
    if j > 0 {
      SkipCandidate(row, cands);
      var rest := cands[1..];
      assert forall k :: 0 <= k < j - 1 ==> rest[k] == cands[k + 1];
      SkipAll(row, rest, j - 1);
      assert rest[j - 1..] == cands[j..];
    }
  }

  /** The first header exactly equal to the candidate is the one the exact test picks. */
  lemma ExactAt(row: Row, cand: string, i: nat)
    requires i < |row.fields|
    requires row.fields[i].0 != "" && Upper(Trim(row.fields[i].0)) == cand
    requires forall k :: 0 <= k < i ==> Upper(Trim(row.fields[k].0)) != cand
    ensures FirstField(row.fields, TrimUpperEquals, cand) == Some(row.fields[i])
  {
    forall k | 0 <= k < i ensures !HeaderMatches(TrimUpperEquals, row.fields[k].0, cand) {
    }
    FirstFieldAt(row.fields, TrimUpperEquals, cand, i);
  }

  /** A candidate no header contains is passed over. */
  lemma SkipCandidate(row: Row, cands: seq<string>)
    requires cands != [] && cands[0] != "" && !HeaderHas(row, cands[0])
    ensures CandidateValue(row, cands) == CandidateValue(row, cands[1..])
  {
    CandidateHitIff(row, cands[0]);
  }

  /** getRowValue, AdminDashboard.jsx: candidates are upper-cased before comparison; `null` if none matches. */
  method GetRowValue(row: Row, candidates: seq<string>) returns (r: Option<string>)
    ensures r == CandidateValue(row, UpperAll(candidates))
  {
    var i := 0;
    while i < |candidates|
      invariant 0 <= i <= |candidates|
      invariant CandidateValue(row, UpperAll(candidates)) == CandidateValue(row, UpperAll(candidates[i..]))
    {
      assert UpperAll(candidates[i..])[1..] == UpperAll(candidates[i + 1..]);
      var c := Upper(candidates[i]);
      var exact := Found(FirstField(row.fields, TrimUpperEquals, c));
      if exact.Some? {
        return exact;
      }
      var partial := Found(FirstField(row.fields, TrimUpperContains, c));
      if partial.Some? {
        return partial;
      }
      i := i + 1;
    }
    return None;
  }

  /** getValue, Home.jsx: candidates compared as given; `''` if none matches. */
  method GetValue(row: Row, candidates: seq<string>) returns (r: string)
    ensures r == CandidateValue(row, candidates).GetOr("")
  {
    var i := 0;
    while i < |candidates|
      invariant 0 <= i <= |candidates|
      invariant CandidateValue(row, candidates) == CandidateValue(row, candidates[i..])
    {
      assert candidates[i..][1..] == candidates[i + 1..];
      var exact := Found(FirstField(row.fields, TrimUpperEquals, candidates[i]));
      if exact.Some? {
        return exact.value;
      }
      var partial := Found(FirstField(row.fields, TrimUpperContains, candidates[i]));
      if partial.Some? {
        return partial.value;
      }
      i := i + 1;
    }
    return "";
  }

  /** getVal, AdminDashboard.jsx: the first key whose lower-cased name equals a header's; `''` if none. */
  method GetVal(row: Row, keys: seq<string>) returns (r: string)
    ensures r == KeyValue(row, keys)
  {
    var i := 0;
    while i < |keys|
      invariant 0 <= i <= |keys|
      invariant KeyValue(row, keys) == KeyValue(row, keys[i..])
    {
      assert keys[i..][1..] == keys[i + 1..];
      var found := Found(FirstField(row.fields, LowerEquals, keys[i]));
      if found.Some? {
        return found.value;
      }
      i := i + 1;
    }
    return "";
  }
}
