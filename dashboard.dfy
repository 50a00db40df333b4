/**
 * The manager dashboard (AdminDashboard.jsx): request records read from the log sheet, the
 * store-to-client directory, the consultant, type and client filters, the attribution of a
 * record to a client, the statistics pass, the status update and the paginated table.
 */
module Dashboard {
  import opened Wrappers
  import opened Text
  import opened Seqs
  import opened Rows
  import opened Ordered
  import opened Directory
  import opened Matcher

  // ---------------------------------------------------------------------------------------------
  // Request records

  /** One row of the request log, normalised; `requestType` is the source's `type`. */
  datatype LogRecord = LogRecord(
    id: nat, date: string, consultant: string, requestType: string,
    originalDate: string, originalTime: string, storeFrom: string, storeTo: string,
    newDate: string, newTime: string, reason: string, status: string)

  const Done := "Feito"

  /**
   * One sheet row as a record: the sheet row number is the array index plus two (the header is
   * row 1), and each field is looked up under its Portuguese header, as the sheet exports it,
   * or its English name.
   */
  function Normalize(row: Row, index: nat): (r: LogRecord)
    ensures r.id == index + 2
  {
    LogRecord(
      index + 2,
      KeyValue(row, ["Data da Solicita√ß√£o", "date"]),
      KeyValue(row, ["Consultor", "consultant"]),
      KeyValue(row, ["Tipo (Hor√°rio/JP/Massa)", "type"]),
      KeyValue(row, ["Data Original", "originalDate"]),
      KeyValue(row, ["Hor√°rio Original", "originalTime"]),
      KeyValue(row, ["Loja Original", "storeFrom", "originalStore"]),
      KeyValue(row, ["Nova Loja", "storeTo", "newStore"]),
      KeyValue(row, ["Nova Data", "newDate"]),
      KeyValue(row, ["Novo Hor√°rio", "newTime"]),
      KeyValue(row, ["Motivo", "reason"]),
      KeyValue(row, ["Status", "status"]))
  }

  /** `(data || []).map(...)`: one record per row, numbered by sheet row, so ids are distinct. */
  function NormalizeLogs(data: seq<Row>): (logs: seq<LogRecord>)
    ensures |logs| == |data|
    ensures forall i :: 0 <= i < |logs| ==> logs[i].id == i + 2
    ensures forall i, j :: 0 <= i < j < |logs| ==> logs[i].id < logs[j].id
  {
    seq(|data|, i requires 0 <= i < |data| => Normalize(data[i], i))
  }

  // ---------------------------------------------------------------------------------------------
  // The directory

  const StoreHeaders := ["LOJA", "NOME PDV", "NOME_PDV"]
  const ClientHeaders := ["CLIENTE", "CLIENT"]

  /** The directory loadStoreData builds, rows in file order. */
  function StoreDirectory(data: seq<Row>): OMap<string> {
    FromEntries(RowEntries(data, UpperAll(StoreHeaders), UpperAll(ClientHeaders)))
  }

  /** loadStoreData's `forEach`: one write `mapping[store] = client` per row with both values truthy. */
  method BuildDirectory(data: seq<Row>) returns (mapping: OMap<string>)
    ensures Valid(mapping)
    ensures mapping == StoreDirectory(data)
  {
    mapping := Empty();
    var i := 0;
    while i < |data|
      invariant 0 <= i <= |data|
      invariant mapping == FromEntries(RowEntries(data[..i], UpperAll(StoreHeaders), UpperAll(ClientHeaders)))
    {
      var es := RowEntries(data[..i + 1], UpperAll(StoreHeaders), UpperAll(ClientHeaders));
      assert es[..i] == RowEntries(data[..i], UpperAll(StoreHeaders), UpperAll(ClientHeaders));
      var store := GetRowValue(data[i], StoreHeaders);
      var client := GetRowValue(data[i], ClientHeaders);
      if store.Some? && store.value != "" && client.Some? && client.value != "" {
        var storeStr := Upper(Trim(store.value));
        mapping := Put(mapping, storeStr, Trim(client.value));
      }
      i := i + 1;
    }
    assert data[..i] == data;
  }

  // ---------------------------------------------------------------------------------------------
  // Filters (a selection of `""` stands for `null`; both are falsy)

  function ConsultantFilter(logs: seq<LogRecord>, selected: string): (r: seq<LogRecord>)
    ensures selected == "" ==> r == logs
    ensures selected != "" ==> forall log :: log in r <==> log in logs && Upper(log.consultant) == Upper(selected)
  {
    var keep := (log: LogRecord) => Upper(log.consultant) == Upper(selected);
    FilterMembers(logs, keep);
    if selected == "" then logs else Filter(logs, keep)
  }

  function TypeFilter(logs: seq<LogRecord>, selected: string): (r: seq<LogRecord>)
    ensures selected == "" ==> r == logs
    ensures selected != "" ==> forall log :: log in r <==> log in logs && Upper(log.requestType) == Upper(selected)
  {
    var keep := (log: LogRecord) => Upper(log.requestType) == Upper(selected);
    FilterMembers(logs, keep);
    if selected == "" then logs else Filter(logs, keep)
  }

  // ---------------------------------------------------------------------------------------------
  // Attribution

  /** `(storeFrom || storeTo || '').trim().toUpperCase()` */
  function StoreString(log: LogRecord): string {
    Upper(Trim(OrElse(log.storeFrom, log.storeTo)))
  }

  /** `matchedKey ? storeToClientMap[matchedKey] : 'N/A'` after `findMatch(storeRaw)`. */
  function FuzzyClient(dir: OMap<string>, storeRaw: string): (r: string)
    requires Valid(dir)
    ensures r == "N/A" || exists k :: k in dir.vals && dir.vals[k] == r
    ensures MatchStore(storeRaw, BuildIndex(dir.keys)).None? ==> r == "N/A"
  {
    MatchIsKey(storeRaw, dir.keys);
    match MatchStore(storeRaw, BuildIndex(dir.keys))
    case Some(k) => dir.vals[k]
    case None => "N/A"
  }

  /**
   * The client a store string is attributed to: the exact directory value if it is truthy, else
   * the fuzzy result for a non-empty store, else `'N/A'`.
   */
  function ClientOf(dir: OMap<string>, storeRaw: string): (r: string)
    requires Valid(dir)
    ensures Lookup(dir, storeRaw) != "" ==> r == Lookup(dir, storeRaw)
    ensures Lookup(dir, storeRaw) == "" && storeRaw != "" ==> r == FuzzyClient(dir, storeRaw)
    ensures Lookup(dir, storeRaw) == "" && storeRaw == "" ==> r == "N/A"
  {
    var exact := Lookup(dir, storeRaw);
    if exact != "" then exact
    else if storeRaw != "" then FuzzyClient(dir, storeRaw)
    else "N/A"
  }

  /** Every attribution is `'N/A'` or the client of some directory entry. */
  lemma ClientOfRange(dir: OMap<string>, storeRaw: string)
    requires Valid(dir)
    ensures Attributable(dir, ClientOf(dir, storeRaw))
  {
  }

  /** A client name the pass can report: `'N/A'` or the client of some directory entry. */
  predicate Attributable(dir: OMap<string>, c: string) {
    c == "N/A" || exists k :: k in dir.vals && dir.vals[k] == c
  }

  /** The stores the statistics pass lists as unmatched: exact lookup falsy and fuzzy result `'N/A'`. */
  predicate FuzzyMiss(dir: OMap<string>, storeRaw: string)
    requires Valid(dir)
  {
    storeRaw != "" && Lookup(dir, storeRaw) == "" && FuzzyClient(dir, storeRaw) == "N/A"
  }

  /** The client filter: records attributed to exactly the selected client, in their order. */
  function ClientFilter(dir: OMap<string>, logs: seq<LogRecord>, selected: string): (r: seq<LogRecord>)
    requires Valid(dir)
    ensures selected == "" ==> r == logs
    ensures selected != "" ==> forall log :: log in r <==> log in logs && ClientOf(dir, StoreString(log)) == selected
  {
    var keep := (log: LogRecord) => ClientOf(dir, StoreString(log)) == selected;
    FilterMembers(logs, keep);
    if selected == "" then logs else Filter(logs, keep)
  }

  // ---------------------------------------------------------------------------------------------
  // The statistics pass

  /** The consultant each record is counted under: `item.consultant || 'Desconhecido'`. */
  function ConsultantNames(logs: seq<LogRecord>): (r: seq<string>)
    ensures |r| == |logs|
    ensures forall j :: 0 <= j < |logs| ==> r[j] == OrElse(logs[j].consultant, "Desconhecido")
  {
    if logs == [] then []
    else ConsultantNames(logs[..|logs| - 1]) + [OrElse(logs[|logs| - 1].consultant, "Desconhecido")]
  }

  /** The type each record is counted under: `item.type || 'Outros'`. */
  function TypeNames(logs: seq<LogRecord>): (r: seq<string>)
    ensures |r| == |logs|
    ensures forall j :: 0 <= j < |logs| ==> r[j] == OrElse(logs[j].requestType, "Outros")
  {
    if logs == [] then []
    else TypeNames(logs[..|logs| - 1]) + [OrElse(logs[|logs| - 1].requestType, "Outros")]
  }

  /** The records with a non-empty store string, the only ones the client breakdown counts. */
  function WithStore(logs: seq<LogRecord>): (r: seq<LogRecord>)
    ensures |r| <= |logs|
    ensures forall log :: log in r <==> log in logs && StoreString(log) != ""
  {
    if logs == [] then []
    else WithStore(logs[..|logs| - 1]) + (if StoreString(logs[|logs| - 1]) != "" then [logs[|logs| - 1]] else [])
  }

  /** The client each record with a store is counted under. */
  function ClientNames(dir: OMap<string>, logs: seq<LogRecord>): (r: seq<string>)
    requires Valid(dir)
    ensures |r| == |WithStore(logs)|
  {
    if logs == [] then []
    else
      var log := logs[|logs| - 1];
      ClientNames(dir, logs[..|logs| - 1]) + (if StoreString(log) != "" then [ClientOf(dir, StoreString(log))] else [])
  }

  /** The store string of every record, in order. */
  function Stores(logs: seq<LogRecord>): (r: seq<string>)
    ensures |r| == |logs| && forall j :: 0 <= j < |logs| ==> r[j] == StoreString(logs[j])
  {
    Map(logs, StoreString)
  }

  /** The store strings of the records the fuzzy fallback fails on, with repetitions, in order. */
  function Misses(dir: OMap<string>, logs: seq<LogRecord>): (r: seq<string>)
    requires Valid(dir)
  {
    Filter(Stores(logs), (m: string) => FuzzyMiss(dir, m))
  }

  /** The unfolding of the per-record lists at record `i`. */
  lemma NamesSnoc(dir: OMap<string>, logs: seq<LogRecord>, i: nat)
    requires Valid(dir) && i < |logs|
    ensures ConsultantNames(logs[..i + 1]) == ConsultantNames(logs[..i]) + [OrElse(logs[i].consultant, "Desconhecido")]
    ensures TypeNames(logs[..i + 1]) == TypeNames(logs[..i]) + [OrElse(logs[i].requestType, "Outros")]
    ensures StoreString(logs[i]) != "" ==>
      ClientNames(dir, logs[..i + 1]) == ClientNames(dir, logs[..i]) + [ClientOf(dir, StoreString(logs[i]))]
    ensures StoreString(logs[i]) == "" ==> ClientNames(dir, logs[..i + 1]) == ClientNames(dir, logs[..i])
  {
    var xs := logs[..i + 1];
    assert xs[..i] == logs[..i];
    var a := ClientNames(dir, logs[..i]);
    assert a + [] == a;
  }

  lemma StoresSnoc(logs: seq<LogRecord>, i: nat)
    requires i < |logs|
    ensures Stores(logs[..i + 1]) == Stores(logs[..i]) + [StoreString(logs[i])]
  {
    MapPrefix(logs, i, StoreString);
  }

  lemma MissesSnoc(dir: OMap<string>, logs: seq<LogRecord>, i: nat)
    requires Valid(dir) && i < |logs|
    ensures FuzzyMiss(dir, StoreString(logs[i])) ==>
      Misses(dir, logs[..i + 1]) == Misses(dir, logs[..i]) + [StoreString(logs[i])]
    ensures !FuzzyMiss(dir, StoreString(logs[i])) ==> Misses(dir, logs[..i + 1]) == Misses(dir, logs[..i])
  {
    var m := StoreString(logs[i]);
    StoresSnoc(logs, i);
    FilterSnoc(Stores(logs[..i]), m, (m: string) => FuzzyMiss(dir, m));
    var b := Misses(dir, logs[..i]);
    assert b + [] == b;
  }

  /** One record's client lookup in the statistics pass, and whether it joins the unmatched set. */
  method AttributeStore(dir: OMap<string>, tokenizedKeys: seq<KeyTokens>, storeRaw: string)
    returns (client: string, miss: bool)
    requires Valid(dir) && tokenizedKeys == BuildIndex(dir.keys) && storeRaw != ""
    ensures client == ClientOf(dir, storeRaw)
    ensures miss == FuzzyMiss(dir, storeRaw)
  {
    client := Lookup(dir, storeRaw);
    miss := false;
    if client == "" {
      var matchedKey := FindMatch(storeRaw, tokenizedKeys);
      MatchIsKey(storeRaw, dir.keys);
      client := if matchedKey.Some? then dir.vals[matchedKey.value] else "N/A";
      miss := client == "N/A";
    }
  }

  /** The `forEach` callback of the statistics pass on record `i`, given the state after the records before it. */
  method CountItem(dir: OMap<string>, tokenizedKeys: seq<KeyTokens>, filtered: seq<LogRecord>, i: nat,
                   consultantCount: Tally, typeCount: Tally, clientCount: Tally, unmatchedLog: seq<string>)
    returns (consultantCount': Tally, typeCount': Tally, clientCount': Tally, unmatchedLog': seq<string>)
    requires Valid(dir) && tokenizedKeys == BuildIndex(dir.keys) && i < |filtered|
    requires consultantCount == TallyOf(ConsultantNames(filtered[..i]))
    requires typeCount == TallyOf(TypeNames(filtered[..i]))
    requires clientCount == TallyOf(ClientNames(dir, filtered[..i]))
    requires unmatchedLog == Dedup(Misses(dir, filtered[..i]))
    ensures consultantCount' == TallyOf(ConsultantNames(filtered[..i + 1]))
    ensures typeCount' == TallyOf(TypeNames(filtered[..i + 1]))
    ensures clientCount' == TallyOf(ClientNames(dir, filtered[..i + 1]))
    ensures unmatchedLog' == Dedup(Misses(dir, filtered[..i + 1]))
  {
    var item := filtered[i];
    NamesSnoc(dir, filtered, i);
    MissesSnoc(dir, filtered, i);
    var name := OrElse(item.consultant, "Desconhecido");
    TallySnoc(ConsultantNames(filtered[..i]), name);
    consultantCount' := Inc(consultantCount, name);
    var ty := OrElse(item.requestType, "Outros");
    TallySnoc(TypeNames(filtered[..i]), ty);
    typeCount' := Inc(typeCount, ty);
    var storeRaw := Upper(Trim(OrElse(item.storeFrom, item.storeTo)));
    assert storeRaw == StoreString(item);
    clientCount' := clientCount;
    unmatchedLog' := unmatchedLog;
    if storeRaw != "" {
      var client, isMiss := AttributeStore(dir, tokenizedKeys, storeRaw);
      if isMiss {
        DedupSnoc(Misses(dir, filtered[..i]), storeRaw);
        if storeRaw !in unmatchedLog {
          unmatchedLog' := unmatchedLog + [storeRaw];
        }
      }
      TallySnoc(ClientNames(dir, filtered[..i]), client);
      clientCount' := Inc(clientCount, client);
    }
  }

  datatype Stats = Stats(
    total: nat,
    byType: seq<(string, nat)>,
    byConsultant: seq<(string, nat)>,
    byClient: seq<(string, nat)>,
    filteredLogs: seq<LogRecord>)

  /**
   * The statistics effect after filtering: one pass over the records that fills the three
   * counters and the unmatched set, then the three breakdowns (two cut to the top five) and the
   * unmatched list cut to fifty.
   */
  method ComputeStats(dir: OMap<string>, filtered: seq<LogRecord>) returns (stats: Stats, unmatched: seq<string>)
    requires Valid(dir)
    ensures stats.total == |filtered| && stats.filteredLogs == filtered
    ensures stats.byConsultant == Top(Pairs(TallyOf(ConsultantNames(filtered))), 5)
    ensures stats.byType == Pairs(TallyOf(TypeNames(filtered)))
    ensures stats.byClient == Top(Pairs(TallyOf(ClientNames(dir, filtered))), 5)
    ensures unmatched == Take(Dedup(Misses(dir, filtered)), 50)
  {
    var tokenizedKeys := BuildIndex(dir.keys);
    var consultantCount: Tally := Empty();
    var typeCount: Tally := Empty();
    var clientCount: Tally := Empty();
    var unmatchedLog: seq<string> := [];
    var i := 0;
    while i < |filtered|
      invariant 0 <= i <= |filtered|
      invariant consultantCount == TallyOf(ConsultantNames(filtered[..i]))
      invariant typeCount == TallyOf(TypeNames(filtered[..i]))
      invariant clientCount == TallyOf(ClientNames(dir, filtered[..i]))
      invariant unmatchedLog == Dedup(Misses(dir, filtered[..i]))
    {
      consultantCount, typeCount, clientCount, unmatchedLog :=
        CountItem(dir, tokenizedKeys, filtered, i, consultantCount, typeCount, clientCount, unmatchedLog);
      i := i + 1;
    }
    assert filtered[..i] == filtered;
    unmatched := Take(unmatchedLog, 50);
    stats := Stats(
      |filtered|,
      Pairs(typeCount),
      Top(Pairs(consultantCount), 5),
      Top(Pairs(clientCount), 5),
      filtered);
  }

  // ---------------------------------------------------------------------------------------------
  // What the statistics promise

  /** Consultant and type counts each add up to the number of records; client counts to those with a store. */
  lemma StatsTotals(dir: OMap<string>, filtered: seq<LogRecord>)
    requires Valid(dir)
    ensures SumValues(Pairs(TallyOf(ConsultantNames(filtered)))) == |filtered|
    ensures SumValues(Pairs(TallyOf(TypeNames(filtered)))) == |filtered|
    ensures SumValues(Pairs(TallyOf(ClientNames(dir, filtered)))) == |WithStore(filtered)|
  {
    PairsSum(TallyOf(ConsultantNames(filtered)));
    TallyTotal(ConsultantNames(filtered));
    PairsSum(TallyOf(TypeNames(filtered)));
    TallyTotal(TypeNames(filtered));
    PairsSum(TallyOf(ClientNames(dir, filtered)));
    TallyTotal(ClientNames(dir, filtered));
  }

  /**
   * The type breakdown lists every type that occurs, once each, in order of first occurrence,
   * with the number of records of that type.
   */
  lemma TypeBreakdown(filtered: seq<LogRecord>, t: string)
    ensures var bt := Pairs(TallyOf(TypeNames(filtered)));
      && |bt| == |Dedup(TypeNames(filtered))|
      && (forall j :: 0 <= j < |bt| ==> bt[j].0 == Dedup(TypeNames(filtered))[j])
      && (t in TypeNames(filtered) <==> exists j :: 0 <= j < |bt| && bt[j].0 == t)
      && (forall j :: 0 <= j < |bt| && bt[j].0 == t ==> bt[j].1 == multiset(TypeNames(filtered))[t])
  {
    TallyKeys(TypeNames(filtered));
    TallyCounts(TypeNames(filtered), t);
  }

  /** The two top-five breakdowns: at most five entries, in descending order, none outranked by a left-out one. */
  lemma TopFive(dir: OMap<string>, filtered: seq<LogRecord>)
    requires Valid(dir)
    ensures var all := Pairs(TallyOf(ConsultantNames(filtered))); var top := Top(all, 5);
      && |top| <= 5 && SortedDesc(top) && multiset(top) <= multiset(all)
      && (forall e, i :: e in multiset(all) - multiset(top) && 0 <= i < |top| ==> e.1 <= top[i].1)
    ensures var all := Pairs(TallyOf(ClientNames(dir, filtered))); var top := Top(all, 5);
      && |top| <= 5 && SortedDesc(top) && multiset(top) <= multiset(all)
      && (forall e, i :: e in multiset(all) - multiset(top) && 0 <= i < |top| ==> e.1 <= top[i].1)
  {
    var a := Pairs(TallyOf(ConsultantNames(filtered)));
    TopIsTop(a, 5, Top(a, 5));
    var b := Pairs(TallyOf(ClientNames(dir, filtered)));
    TopIsTop(b, 5, Top(b, 5));
  }

  /** Every client counted is `'N/A'` or the client of a directory entry. */
  lemma {:induction false} ClientNamesRange(dir: OMap<string>, filtered: seq<LogRecord>)
    requires Valid(dir)
    ensures forall c :: c in ClientNames(dir, filtered) ==> Attributable(dir, c)
  {
    if filtered != [] {
      var init := filtered[..|filtered| - 1];
      var log := filtered[|filtered| - 1];
      ClientNamesRange(dir, init);
      ClientOfRange(dir, StoreString(log));
    }
  }

  /** A store string is a miss of the pass exactly when some record has it and the fuzzy fallback fails on it. */
  lemma MissesIff(dir: OMap<string>, filtered: seq<LogRecord>, m: string)
    requires Valid(dir)
    ensures m in Misses(dir, filtered) <==> FuzzyMiss(dir, m) && exists j :: 0 <= j < |filtered| && StoreString(filtered[j]) == m
  {
    var st := Stores(filtered);
    FilterMembers(st, (m: string) => FuzzyMiss(dir, m));
    if m in st {
      var j :| 0 <= j < |st| && st[j] == m;
    }
  }

  /**
   * The unmatched list: at most fifty distinct fuzzy-miss store strings of the records, in order
   * of first occurrence; when there are at most fifty such strings, all of them.
   */
  lemma UnmatchedList(dir: OMap<string>, filtered: seq<LogRecord>)
    requires Valid(dir)
    ensures var u := Take(Dedup(Misses(dir, filtered)), 50);
      && |u| <= 50 && Distinct(u)
      && (forall m :: m in u ==> FuzzyMiss(dir, m) && exists j :: 0 <= j < |filtered| && StoreString(filtered[j]) == m)
    ensures |Dedup(Misses(dir, filtered))| <= 50 ==>
      forall j :: 0 <= j < |filtered| && FuzzyMiss(dir, StoreString(filtered[j])) ==>
        StoreString(filtered[j]) in Take(Dedup(Misses(dir, filtered)), 50)
  {
    var d := Dedup(Misses(dir, filtered));
    var u := Take(d, 50);
    forall m | m in u ensures FuzzyMiss(dir, m) && exists j :: 0 <= j < |filtered| && StoreString(filtered[j]) == m {
      assert m in d;
      MissesIff(dir, filtered, m);
    }
    forall j | 0 <= j < |filtered| && FuzzyMiss(dir, StoreString(filtered[j])) && |d| <= 50
      ensures StoreString(filtered[j]) in u
    {
      MissesIff(dir, filtered, StoreString(filtered[j]));
    }
  }

  // ---------------------------------------------------------------------------------------------
  // The status update

  /** `user && (user.toUpperCase() === 'MASTERPRO2026' || user.toUpperCase() === 'MASTER')` */
  predicate IsMaster(user: Option<string>) {
    user.Some? && user.value != "" && (Upper(user.value) == "MASTERPRO2026" || Upper(user.value) == "MASTER")
  }

  /** The optimistic update: the records with the given id take status `'Feito'`, the rest stay as they are. */
  function MarkDone(logs: seq<LogRecord>, id: nat): (r: seq<LogRecord>)
    ensures |r| == |logs|
    ensures forall j :: 0 <= j < |logs| && logs[j].id != id ==> r[j] == logs[j]
    ensures forall j :: 0 <= j < |logs| && logs[j].id == id ==> r[j] == logs[j].(status := Done)
  {
    seq(|logs|, j requires 0 <= j < |logs| => if logs[j].id == id then logs[j].(status := Done) else logs[j])
  }

  /**
   * handleStatusUpdate with the answer to the confirmation dialog as a parameter: the new logs,
   * and the row passed to `updateLogStatus`, if any.
   */
  function HandleStatusUpdate(user: Option<string>, logs: seq<LogRecord>, rowIndex: nat, currentStatus: string,
                              confirmed: bool): (r: (seq<LogRecord>, Option<nat>))
    ensures r.1.Some? <==> IsMaster(user) && currentStatus != Done && confirmed
    ensures r.1.Some? ==> r.1.value == rowIndex && r.0 == MarkDone(logs, rowIndex)
    ensures r.1.None? ==> r.0 == logs
  {
    if !IsMaster(user) || currentStatus == Done || !confirmed then (logs, None)
    else (MarkDone(logs, rowIndex), Some(rowIndex))
  }

  /** Marking twice is marking once. */
  lemma MarkDoneIdempotent(logs: seq<LogRecord>, id: nat)
    ensures MarkDone(MarkDone(logs, id), id) == MarkDone(logs, id)
  {
  }

  /** On freshly normalised logs, ids are sheet rows, so the update touches exactly the row it names. */
  lemma MarkDoneOneRow(data: seq<Row>, k: nat)
    requires k < |data|
    ensures var logs := NormalizeLogs(data); var r := MarkDone(logs, k + 2);
      && r[k].status == Done
      && forall j :: 0 <= j < |logs| && j != k ==> r[j] == logs[j]
  {
  }

  // ---------------------------------------------------------------------------------------------
  // The table: pending first, twenty rows a page

  const ItemsPerPage := 20

  predicate Pending(log: LogRecord) { log.status != Done }

  /**
   * processedLogs without the date tie-break: the optional pending-only filter, then the
   * stable ordering that puts every pending record before every completed one.
   */
  function Processed(logs: seq<LogRecord>, showPendingOnly: bool): (r: seq<LogRecord>)
  {
    var shown := if showPendingOnly then Filter(logs, Pending) else logs;
    Filter(shown, Pending) + Filter(shown, (log: LogRecord) => !Pending(log))
  }

  /**
   * processedLogs holds the shown records (every record, or exactly the pending ones), each as
   * often as before, with no pending one after a completed one.
   */
  lemma ProcessedOrder(logs: seq<LogRecord>, showPendingOnly: bool)
    ensures var r := Processed(logs, showPendingOnly);
      && (forall i, j :: 0 <= i < j < |r| && Pending(r[j]) ==> Pending(r[i]))
      && (showPendingOnly ==> forall i :: 0 <= i < |r| ==> Pending(r[i]))
      && (showPendingOnly ==> multiset(r) == multiset(Filter(logs, Pending)))
      && (!showPendingOnly ==> multiset(r) == multiset(logs))
  {
    var shown := if showPendingOnly then Filter(logs, Pending) else logs;
    var notPending := (log: LogRecord) => !Pending(log);
    Partition(shown, Pending, notPending);
    if showPendingOnly {
      FilterMembers(logs, Pending);
      FilterMembers(shown, notPending);
      var b := Filter(shown, notPending);
      assert forall x :: multiset(b)[x] == 0;
      assert multiset(b) == multiset{};
      var a := Filter(shown, Pending);
      assert a + b == a;
    }
  }

  /** `Math.ceil(n / 20)` */
  function TotalPages(n: nat): (r: nat)
    ensures (r - 1) * ItemsPerPage < n <= r * ItemsPerPage || (n == 0 && r == 0)
  {
    (n + ItemsPerPage - 1) / ItemsPerPage
  }

  /** `Array.prototype.slice` with non-negative bounds: both clamp to the length. */
  function Slice<T>(s: seq<T>, start: nat, end: nat): (r: seq<T>)
    ensures start <= end <= |s| ==> r == s[start..end]
    ensures end <= start || |s| <= start ==> r == []
  {
    var e := if end < |s| then end else |s|;
    if e <= start then [] else s[start..e]
  }

  /** paginatedLogs for 1-based page `currentPage`. */
  function Page<T>(logs: seq<T>, currentPage: nat): (r: seq<T>)
    requires currentPage >= 1
    ensures |r| <= ItemsPerPage
    ensures currentPage > TotalPages(|logs|) ==> r == []
  {
    Slice(logs, (currentPage - 1) * ItemsPerPage, currentPage * ItemsPerPage)
  }

  /** Pages 1..n laid end to end. */
  function Pages<T>(logs: seq<T>, n: nat): seq<T> {
    if n == 0 then [] else Pages(logs, n - 1) + Page(logs, n)
  }

  /** The first n pages are the first min(20n, |logs|) records; all pages put together are the whole list. */
  lemma {:induction false} PagesPrefix<T>(logs: seq<T>, n: nat)
    ensures Pages(logs, n) == logs[..if n * ItemsPerPage < |logs| then n * ItemsPerPage else |logs|]
  {
    if n > 0 {
      PagesPrefix(logs, n - 1);
    }
  }

  lemma PagesCover<T>(logs: seq<T>)
    ensures Pages(logs, TotalPages(|logs|)) == logs
  {
    PagesPrefix(logs, TotalPages(|logs|));
  }

  /** The previous-page button: `Math.max(1, prev - 1)`. */
  function PrevPage(current: int): (r: int)
    ensures r >= 1 && (current > 1 ==> r == current - 1)
  {
    if current - 1 > 1 then current - 1 else 1
  }

  /** The next-page button: `Math.min(totalPages, prev + 1)` (the buttons exist only for two pages or more). */
  function NextPage(current: int, totalPages: nat): (r: int)
    requires totalPages > 1
    ensures r <= totalPages && (current < totalPages ==> r == current + 1)
  {
    if totalPages < current + 1 then totalPages else current + 1
  }

  /** Starting on a page in range, the buttons never leave the range. */
  lemma PagingStaysInRange(current: int, totalPages: nat)
    requires totalPages > 1 && 1 <= current <= totalPages
    ensures 1 <= PrevPage(current) <= totalPages
    ensures 1 <= NextPage(current, totalPages) <= totalPages
  {
  }
}
