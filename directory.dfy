/**
 * The store-to-client directory built from the base rows (`mapping` in AdminDashboard.jsx,
 * `storeClientMap` in Home.jsx): for every row with a truthy store and a truthy client, the
 * trimmed, upper-cased store maps to the trimmed client; a later row overwrites an earlier one.
 */
module Directory {
  import opened Wrappers
  import opened Text
  import opened Rows
  import opened Ordered

  /** The entry a row contributes, given the values its store and client lookups returned. */
  function Entry(store: Option<string>, client: Option<string>): (e: Option<(string, string)>)
    ensures e.Some? <==> store.Some? && store.value != "" && client.Some? && client.value != ""
    ensures e.Some? ==> e.value == (Upper(Trim(store.value)), Trim(client.value))
  {
    if store.Some? && store.value != "" && client.Some? && client.value != "" then
      Some((Upper(Trim(store.value)), Trim(client.value)))
    else None
  }

  /** The entry of one row, the store and client looked up under the given (compared) candidates. */
  function RowEntry(row: Row, storeCands: seq<string>, clientCands: seq<string>): Option<(string, string)> {
    Entry(CandidateValue(row, storeCands), CandidateValue(row, clientCands))
  }

  function RowEntries(rows: seq<Row>, storeCands: seq<string>, clientCands: seq<string>): (es: seq<Option<(string, string)>>)
    ensures |es| == |rows| && forall i :: 0 <= i < |rows| ==> es[i] == RowEntry(rows[i], storeCands, clientCands)
  {
    seq(|rows|, i requires 0 <= i < |rows| => RowEntry(rows[i], storeCands, clientCands))
  }

  /** The directory after the `forEach` has written the entries `es` in order. */
  function FromEntries(es: seq<Option<(string, string)>>): (d: OMap<string>)
    ensures Valid(d)
  {
    if es == [] then Empty()
    else
      var d := FromEntries(es[..|es| - 1]);
      match es[|es| - 1]
      case Some(e) => Put(d, e.0, e.1)
      case None => d
  }

  /** The store keys of the entries, in order (repetitions kept). */
  function EntryKeys(es: seq<Option<(string, string)>>): seq<string> {
    if es == [] then []
    else EntryKeys(es[..|es| - 1]) + match es[|es| - 1] case Some(e) => [e.0] case None => []
  }

  predicate HasKey(e: Option<(string, string)>, k: string) {
    e.Some? && e.value.0 == k
  }

  /** `map[k]` in a truthiness test: a missing key reads as `undefined`, which is falsy like `''`. */
  function Lookup(d: OMap<string>, k: string): string {
    if k in d.vals then d.vals[k] else ""
  }

  /** The directory's keys are the stores written, in order of first appearance. */
  lemma {:induction false} KeysInOrder(es: seq<Option<(string, string)>>)
    ensures FromEntries(es).keys == Dedup(EntryKeys(es))
  {
    if es != [] {
      var init := es[..|es| - 1];
      KeysInOrder(init);
      var d := FromEntries(init);
      var ks := EntryKeys(es);
      var e := es[|es| - 1];
      if e.Some? {
        assert ks[..|ks| - 1] == EntryKeys(init);
        assert e.value.0 in d.vals <==> e.value.0 in d.keys;
      } else {
        assert ks == EntryKeys(init);
      }
    }
  }

  /** A store is a key exactly when some entry writes it. */
  lemma {:induction false} WrittenKeys(es: seq<Option<(string, string)>>, k: string)
    ensures k in FromEntries(es).vals <==> exists i :: 0 <= i < |es| && HasKey(es[i], k)
  {
    if es != [] {
      var n := |es| - 1;
      WrittenKeys(es[..n], k);
      assert forall i :: 0 <= i < n ==> es[..n][i] == es[i];
    }
  }

  /** An entry that does not write `k` leaves its presence and its value as they were. */
  lemma SkipEntry(es: seq<Option<(string, string)>>, k: string)
    requires es != [] && !HasKey(es[|es| - 1], k)
    ensures var d := FromEntries(es); var d0 := FromEntries(es[..|es| - 1]);
      (k in d.vals <==> k in d0.vals) && (k in d.vals ==> d.vals[k] == d0.vals[k])
  {
  }

  /** No entry after position `i` writes `k`. */
  predicate NoLaterWrite(es: seq<Option<(string, string)>>, i: nat, k: string) {
    forall j :: i < j < |es| ==> !HasKey(es[j], k)
  }

  lemma ExtendNoLaterWrite(es: seq<Option<(string, string)>>, i: nat, k: string)
    requires i < |es| - 1 && NoLaterWrite(es[..|es| - 1], i, k) && !HasKey(es[|es| - 1], k)
    ensures NoLaterWrite(es, i, k)
  {
    assert forall j :: i < j < |es| - 1 ==> es[j] == es[..|es| - 1][j];
  }

  /** The entry that last writes a key, and its client is the key's value. */
  lemma {:induction false} LastWriter(es: seq<Option<(string, string)>>, k: string) returns (i: nat)
    requires k in FromEntries(es).vals
    ensures i < |es| && es[i] == Some((k, FromEntries(es).vals[k]))
    ensures NoLaterWrite(es, i, k)
  {
    var n := |es| - 1;
    if HasKey(es[n], k) {
      i := n;
    } else {
      var init := es[..n];
      SkipEntry(es, k);
      i := LastWriter(init, k);
      assert es[i] == init[i];
      ExtendNoLaterWrite(es, i, k);
    }
  }

  /**
   * A store is a key exactly when some entry writes it, and its client is the one of the last
   * entry that writes that store.
   */
  lemma LastWriteWins(es: seq<Option<(string, string)>>, k: string)
    ensures var d := FromEntries(es);
      && (k in d.vals <==> exists i :: 0 <= i < |es| && HasKey(es[i], k))
      && (k in d.vals ==> exists i :: 0 <= i < |es| && es[i] == Some((k, d.vals[k]))
                             && forall j :: i < j < |es| ==> !HasKey(es[j], k))
  {
    WrittenKeys(es, k);
    if k in FromEntries(es).vals {
      var i := LastWriter(es, k);
    }
  }

  /** A store key trimmed and upper-cased, a client trimmed. */
  predicate NormalPair(k: string, v: string) {
    Upper(Trim(k)) == k && Trim(v) == v
  }

  /** Every entry is normalised: trimming and upper-casing it again changes nothing. */
  lemma EntryNormal(store: Option<string>, client: Option<string>)
    ensures var e := Entry(store, client); e.Some? ==> NormalPair(e.value.0, e.value.1)
  {
    if store.Some? && client.Some? {
      UpperTrimmedIsTrimmed(store.value);
      TrimFixed(Trim(client.value));
    }
  }

  /** The directory built from base rows: keys trimmed and upper-cased, values trimmed. */
  lemma BuildNormal(rows: seq<Row>, storeCands: seq<string>, clientCands: seq<string>)
    ensures var d := FromEntries(RowEntries(rows, storeCands, clientCands));
      forall k :: k in d.vals ==> NormalPair(k, d.vals[k])
  {
    var d := FromEntries(RowEntries(rows, storeCands, clientCands));
    forall k | k in d.vals ensures NormalPair(k, d.vals[k]) {
      NormalAt(rows, storeCands, clientCands, k);
    }
  }

  lemma NormalAt(rows: seq<Row>, storeCands: seq<string>, clientCands: seq<string>, k: string)
    requires k in FromEntries(RowEntries(rows, storeCands, clientCands)).vals
    ensures var d := FromEntries(RowEntries(rows, storeCands, clientCands));
      NormalPair(k, d.vals[k])
  {
    var es := RowEntries(rows, storeCands, clientCands);
    var d := FromEntries(es);
    LastWriteWins(es, k);
    var i :| 0 <= i < |es| && es[i] == Some((k, d.vals[k]));
    EntryNormal(CandidateValue(rows[i], storeCands), CandidateValue(rows[i], clientCands));
  }
}
