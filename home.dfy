/**
 * The consultant's home screen (Home.jsx): the store-to-client map built from the base rows,
 * the consultant's own visits grouped by date, the inclusions saved on this device added to
 * existing dates, the pending-request flags of every visit, and the list of stores the
 * consultant may pick from.
 */
module Home {
  import opened Wrappers
  import opened Text
  import opened Seqs
  import opened Rows
  import opened Ordered
  import opened Directory
  import opened Storage
  import opened Sorting

  // The column candidates passed to `getValue`.
  const StoreColumns: seq<string> := ["LOJA"]
  const ClientColumns: seq<string> := ["CLIENTE"]
  const ConsultantColumns: seq<string> := ["CONSULTOR"]
  const DateColumns: seq<string> := ["DATA"]
  const WeekdayColumns: seq<string> := ["DIA DA SEMANA", "DIA"]
  const CheckInColumns: seq<string> := ["CHECK IN", "ENTRADA"]
  const CheckOutColumns: seq<string> := ["CHECK OUT", "SAIDA"]

  /** `getValue(row, ...candidates)`: `''` when no header matches any candidate. */
  function Value(row: Row, cands: seq<string>): string {
    CandidateValue(row, cands).GetOr("")
  }

  // ---------------------------------------------------------------------------------------------
  // The store-to-client map

  function StoreClientMap(storesData: seq<Row>): (m: OMap<string>)
    ensures Valid(m)
  {
    FromEntries(RowEntries(storesData, StoreColumns, ClientColumns))
  }

  /** One more base row writes its entry when it has both a store and a client. */
  lemma StoreMapStep(storesData: seq<Row>, i: nat)
    requires i < |storesData|
    ensures var prev := FromEntries(RowEntries(storesData[..i], StoreColumns, ClientColumns));
      var s := Value(storesData[i], StoreColumns); var c := Value(storesData[i], ClientColumns);
      FromEntries(RowEntries(storesData[..i + 1], StoreColumns, ClientColumns))
        == if s != "" && c != "" then Put(prev, Upper(Trim(s)), Trim(c)) else prev
  {
    var es := RowEntries(storesData[..i + 1], StoreColumns, ClientColumns);
    assert es[..i] == RowEntries(storesData[..i], StoreColumns, ClientColumns);
  }

  method BuildStoreClientMap(storesData: seq<Row>) returns (m: OMap<string>)
    ensures Valid(m)
    ensures m == StoreClientMap(storesData)
  {
    m := Empty();
    var i := 0;
    while i < |storesData|
      invariant 0 <= i <= |storesData|
      invariant m == FromEntries(RowEntries(storesData[..i], StoreColumns, ClientColumns))
    {
      StoreMapStep(storesData, i);
      var store := GetValue(storesData[i], StoreColumns);
      var client := GetValue(storesData[i], ClientColumns);
      if store != "" && client != "" {
        m := Put(m, Upper(Trim(store)), Trim(client));
      }
      i := i + 1;
    }
    assert storesData[..i] == storesData;
  }

  /** Row `row` writes the map entry of store `k`. */
  predicate Writes(row: Row, k: string) {
    Value(row, StoreColumns) != "" && Value(row, ClientColumns) != "" && Upper(Trim(Value(row, StoreColumns))) == k
  }

  lemma RowEntryWrites(row: Row, k: string)
    ensures HasKey(RowEntry(row, StoreColumns, ClientColumns), k) <==> Writes(row, k)
    ensures Writes(row, k) ==> RowEntry(row, StoreColumns, ClientColumns).value.1 == Trim(Value(row, ClientColumns))
  {
  }

  /**
   * A store is in the map exactly when some row with both a store and a client writes it; its
   * client is the trimmed client of the last such row; keys are trimmed and upper-cased and
   * clients trimmed.
   */
  lemma StoreClientMapEntry(storesData: seq<Row>, k: string)
    ensures var m := StoreClientMap(storesData);
      && (k in m.vals <==> exists i :: 0 <= i < |storesData| && Writes(storesData[i], k))
      && (k in m.vals ==> exists i :: 0 <= i < |storesData| && Writes(storesData[i], k)
                            && m.vals[k] == Trim(Value(storesData[i], ClientColumns))
                            && forall j :: i < j < |storesData| ==> !Writes(storesData[j], k))
      && (k in m.vals ==> NormalPair(k, m.vals[k]))
  {
    StoreClientMapHas(storesData, k);
    if k in StoreClientMap(storesData).vals {
      StoreClientMapLast(storesData, k);
      StoreClientMapNormal(storesData, k);
    }
  }

  lemma StoreClientMapNormal(storesData: seq<Row>, k: string)
    requires k in StoreClientMap(storesData).vals
    ensures NormalPair(k, StoreClientMap(storesData).vals[k])
  {
    NormalAt(storesData, StoreColumns, ClientColumns, k);
  }

  /** The entry of each row writes `k` exactly when the row does. */
  lemma EntriesWrite(storesData: seq<Row>, k: string)
    ensures var es := RowEntries(storesData, StoreColumns, ClientColumns);
      forall i :: 0 <= i < |storesData| ==> (HasKey(es[i], k) <==> Writes(storesData[i], k))
  {
    forall i | 0 <= i < |storesData| {
      RowEntryWrites(storesData[i], k);
    }
  }

  lemma StoreClientMapHas(storesData: seq<Row>, k: string)
    ensures k in StoreClientMap(storesData).vals <==> exists i :: 0 <= i < |storesData| && Writes(storesData[i], k)
  {
    LastWriteWins(RowEntries(storesData, StoreColumns, ClientColumns), k);
    EntriesWrite(storesData, k);
  }

  lemma StoreClientMapLast(storesData: seq<Row>, k: string)
    requires k in StoreClientMap(storesData).vals
    ensures var m := StoreClientMap(storesData);
      exists i :: 0 <= i < |storesData| && Writes(storesData[i], k)
        && m.vals[k] == Trim(Value(storesData[i], ClientColumns))
        && forall j :: i < j < |storesData| ==> !Writes(storesData[j], k)
  {
    var es := RowEntries(storesData, StoreColumns, ClientColumns);
    var i := LastWriter(es, k);
    EntriesWrite(storesData, k);
    RowEntryWrites(storesData[i], k);
    assert forall j :: i < j < |storesData| ==> !Writes(storesData[j], k);
  }

  // ---------------------------------------------------------------------------------------------
  // The consultant's visits

  /** The row's `CONSULTOR` is set and, upper-cased, contains the upper-cased user name. */
  predicate Mine(row: Row, user: string) {
    var consul := Value(row, ConsultantColumns);
    consul != "" && Contains(Upper(consul), Upper(user))
  }

  function MyVisits(data: seq<Row>, user: string): seq<Row> {
    Filter(data, (row: Row) => Mine(row, user))
  }

  /** The consultant's visits are exactly the rows that are theirs, each as often as in the schedule. */
  lemma MyVisitsMembers(data: seq<Row>, user: string)
    ensures forall row :: row in MyVisits(data, user) <==> row in data && Mine(row, user)
    ensures forall row :: multiset(MyVisits(data, user))[row] == if Mine(row, user) then multiset(data)[row] else 0
  {
    FilterMembers(data, (row: Row) => Mine(row, user));
  }

  // ---------------------------------------------------------------------------------------------
  // Grouping by date

  datatype Visit = Visit(
    date: string, weekday: string, store: string, client: string,
    checkIn: string, checkOut: string, isNewInclusion: bool, reason: Option<string>)

  function DateOf(row: Row): string {
    Value(row, DateColumns)
  }

  /** The visit object pushed for one schedule row. */
  function ToVisit(row: Row): (v: Visit)
    ensures v.date == DateOf(row) && !v.isNewInclusion
  {
    Visit(DateOf(row), Value(row, WeekdayColumns), Value(row, StoreColumns), Value(row, ClientColumns),
          Value(row, CheckInColumns), Value(row, CheckOutColumns), false, None)
  }

  type Groups = OMap<seq<Visit>>

  /** `grouped[d] || []`. */
  function Group(g: Groups, d: string): seq<Visit> {
    if d in g.vals then g.vals[d] else []
  }

  /** The object of groups after the `forEach` over `visits`. */
  function Grouped(visits: seq<Row>): (g: Groups)
    ensures Valid(g)
  {
    if visits == [] then Empty()
    else
      var g := Grouped(visits[..|visits| - 1]);
      var row := visits[|visits| - 1];
      var d := DateOf(row);
      if d == "" then g else Put(g, d, Group(g, d) + [ToVisit(row)])
  }

  /** The visits of the rows dated `d`, in input order. */
  function VisitsOn(visits: seq<Row>, d: string): (r: seq<Visit>)
    ensures forall i :: 0 <= i < |r| ==> r[i].date == d
  {
    if visits == [] then []
    else
      var row := visits[|visits| - 1];
      VisitsOn(visits[..|visits| - 1], d) + if DateOf(row) == d then [ToVisit(row)] else []
  }

  method GroupByDate(myVisits: seq<Row>) returns (grouped: Groups)
    ensures Valid(grouped)
    ensures grouped == Grouped(myVisits)
  {
    grouped := Empty();
    var i := 0;
    while i < |myVisits|
      invariant 0 <= i <= |myVisits|
      invariant grouped == Grouped(myVisits[..i])
    {
      assert myVisits[..i + 1][..i] == myVisits[..i];
      var visit := myVisits[i];
      var dateStr := GetValue(visit, DateColumns);
      if dateStr != "" {
        var group := if dateStr in grouped.vals then grouped.vals[dateStr] else [];
        var weekday := GetValue(visit, WeekdayColumns);
        var store := GetValue(visit, StoreColumns);
        var client := GetValue(visit, ClientColumns);
        var checkIn := GetValue(visit, CheckInColumns);
        var checkOut := GetValue(visit, CheckOutColumns);
        grouped := Put(grouped, dateStr, group + [Visit(dateStr, weekday, store, client, checkIn, checkOut, false, None)]);
      }
      i := i + 1;
    }
    assert myVisits[..i] == myVisits;
  }

  /**
   * A date has a group exactly when it is non-empty and some visit carries it, and the group
   * holds the visits of that date in input order; rows without a date are in no group.
   */
  lemma {:induction false} GroupedByDate(visits: seq<Row>, d: string)
    ensures d in Grouped(visits).vals <==> d != "" && VisitsOn(visits, d) != []
    ensures d != "" ==> Group(Grouped(visits), d) == VisitsOn(visits, d)
  {
    if visits != [] {
      var init := visits[..|visits| - 1];
      GroupedByDate(init, d);
      var on := VisitsOn(init, d);
      assert on + [] == on;
    }
  }

  // ---------------------------------------------------------------------------------------------
  // Inclusions saved on this device

  datatype Inclusion = Inclusion(
    consultant: string, date: string, store: string, checkIn: string, checkOut: string, reason: string)

  /** `group[0]?.weekday || ''`. */
  function Weekday(group: seq<Visit>): string {
    if group == [] then "" else group[0].weekday
  }

  /** The visit pushed for an inclusion: the given weekday and the client the map holds for its store. */
  function Included(inc: Inclusion, weekday: string, dir: OMap<string>): (v: Visit)
    ensures v.weekday == weekday && v.date == inc.date && v.isNewInclusion
  {
    Visit(inc.date, weekday, inc.store, Lookup(dir, Upper(Trim(inc.store))), inc.checkIn, inc.checkOut,
          true, Some(inc.reason))
  }

  /** The groups after the inclusions `incs` have been considered in order. */
  function Inject(g: Groups, incs: seq<Inclusion>, user: string, dir: OMap<string>): (r: Groups)
    requires Valid(g)
    ensures Valid(r)
  {
    if incs == [] then g
    else
      var r := Inject(g, incs[..|incs| - 1], user, dir);
      var inc := incs[|incs| - 1];
      if inc.consultant == user && inc.date in r.vals then
        Put(r, inc.date, r.vals[inc.date] + [Included(inc, Weekday(r.vals[inc.date]), dir)])
      else r
  }

  /** The user's inclusions dated `d`, in order, as visits inheriting `weekday`. */
  function Added(incs: seq<Inclusion>, user: string, dir: OMap<string>, d: string, weekday: string): (r: seq<Visit>)
    ensures forall i :: 0 <= i < |r| ==> r[i].weekday == weekday
  {
    if incs == [] then []
    else
      var inc := incs[|incs| - 1];
      Added(incs[..|incs| - 1], user, dir, d, weekday)
        + if inc.consultant == user && inc.date == d then [Included(inc, weekday, dir)] else []
  }

  lemma InjectPrefix(g: Groups, incs: seq<Inclusion>, i: nat, user: string, dir: OMap<string>)
    requires Valid(g) && i < |incs|
    ensures var r := Inject(g, incs[..i], user, dir); var inc := incs[i];
      Inject(g, incs[..i + 1], user, dir)
        == if inc.consultant == user && inc.date in r.vals then Put(r, inc.date, r.vals[inc.date] + [Included(inc, Weekday(r.vals[inc.date]), dir)]) else r
  {
    assert incs[..i + 1][..i] == incs[..i];
  }

  /** The visit the source pushes for an inclusion on an existing date: the one `Included` describes. */
  method IncludedVisit(inc: Inclusion, group: seq<Visit>, dir: OMap<string>) returns (v: Visit)
    ensures v == Included(inc, Weekday(group), dir)
  {
    var weekday := if group != [] then group[0].weekday else "";
    var client := "";
    if Lookup(dir, Upper(Trim(inc.store))) != "" {
      client := dir.vals[Upper(Trim(inc.store))];
    }
    v := Visit(inc.date, weekday, inc.store, client, inc.checkIn, inc.checkOut, true, Some(inc.reason));
  }

  method InjectInclusions(grouped: Groups, savedInclusions: seq<Inclusion>, user: string, dir: OMap<string>)
    returns (r: Groups)
    requires Valid(grouped)
    ensures Valid(r)
    ensures r == Inject(grouped, savedInclusions, user, dir)
  {
    r := grouped;
    var i := 0;
    while i < |savedInclusions|
      invariant 0 <= i <= |savedInclusions|
      invariant Valid(r)
      invariant r == Inject(grouped, savedInclusions[..i], user, dir)
    {
      InjectPrefix(grouped, savedInclusions, i, user, dir);
      var inc := savedInclusions[i];
      if inc.consultant == user && inc.date in r.vals {
        var v := IncludedVisit(inc, r.vals[inc.date], dir);
        r := Put(r, inc.date, r.vals[inc.date] + [v]);
      }
      i := i + 1;
    }
    assert savedInclusions[..i] == savedInclusions;
  }

  /** Inclusions never create a date: the dates are those of the grouping, in the same order. */
  lemma {:induction false} InjectKeys(g: Groups, incs: seq<Inclusion>, user: string, dir: OMap<string>)
    requires Valid(g)
    ensures Inject(g, incs, user, dir).keys == g.keys
    ensures forall d :: d in Inject(g, incs, user, dir).vals <==> d in g.vals
  {
    if incs != [] {
      InjectKeys(g, incs[..|incs| - 1], user, dir);
    }
  }

  /** Appending visits that carry a group's weekday keeps the weekday the group passes on. */
  lemma WeekdayKept(group: seq<Visit>, added: seq<Visit>)
    requires forall i :: 0 <= i < |added| ==> added[i].weekday == Weekday(group)
    ensures Weekday(group + added) == Weekday(group)
  {
    if group != [] {
      assert (group + added)[0] == group[0];
    }
  }

  /** One more inclusion of the user appends its visit to its date's group. */
  lemma InjectHit(g: Groups, incs: seq<Inclusion>, user: string, dir: OMap<string>)
    requires Valid(g) && incs != []
    requires var inc := incs[|incs| - 1];
      inc.consultant == user && inc.date in Inject(g, incs[..|incs| - 1], user, dir).vals
    ensures var inc := incs[|incs| - 1];
      var group := Inject(g, incs[..|incs| - 1], user, dir).vals[inc.date];
      Inject(g, incs, user, dir).vals[inc.date] == group + [Included(inc, Weekday(group), dir)]
  {
  }

  /** The groups of the other dates stay as they were. */
  lemma InjectOther(g: Groups, incs: seq<Inclusion>, user: string, dir: OMap<string>, d: string)
    requires Valid(g) && incs != [] && d in Inject(g, incs[..|incs| - 1], user, dir).vals
    requires var inc := incs[|incs| - 1]; inc.consultant != user || inc.date != d
    ensures Inject(g, incs, user, dir).vals[d] == Inject(g, incs[..|incs| - 1], user, dir).vals[d]
  {
  }

  lemma AddedSnoc(incs: seq<Inclusion>, user: string, dir: OMap<string>, d: string, weekday: string)
    requires incs != []
    ensures var inc := incs[|incs| - 1];
      Added(incs, user, dir, d, weekday)
        == Added(incs[..|incs| - 1], user, dir, d, weekday)
           + if inc.consultant == user && inc.date == d then [Included(inc, weekday, dir)] else []
  {
  }

  /**
   * An existing date's group is its visits followed by the user's inclusions for that date, in
   * saved order, each inheriting the weekday of the group's first visit.
   */
  lemma {:induction false} InjectContents(g: Groups, incs: seq<Inclusion>, user: string, dir: OMap<string>, d: string)
    requires Valid(g) && d in g.vals
    ensures d in Inject(g, incs, user, dir).vals
    ensures Inject(g, incs, user, dir).vals[d] == g.vals[d] + Added(incs, user, dir, d, Weekday(g.vals[d]))
  {
    InjectKeys(g, incs, user, dir);
    if incs != [] {
      var init := incs[..|incs| - 1];
      var inc := incs[|incs| - 1];
      InjectKeys(g, init, user, dir);
      InjectContents(g, init, user, dir, d);
      var w := Weekday(g.vals[d]);
      var a := Added(init, user, dir, d, w);
      WeekdayKept(g.vals[d], a);
      AddedSnoc(incs, user, dir, d, w);
      if inc.consultant == user && inc.date == d {
        InjectHit(g, incs, user, dir);
        ConcatAssoc(g.vals[d], a, [Included(inc, w, dir)]);
      } else {
        InjectOther(g, incs, user, dir, d);
        assert a + [] == a;
      }
    }
  }

  // ---------------------------------------------------------------------------------------------
  // Pending-request flags

  /** A parsed store-change request, with the client the map gives its new store when it has one. */
  datatype PendingChange = PendingChange(request: JPRequest, newClient: Option<string>)

  datatype FlaggedVisit = FlaggedVisit(visit: Visit, hasPending: bool, pendingChange: Option<PendingChange>)

  /**
   * The pending store change under `key`: nothing when the key is unset or does not parse (the
   * parser returns `None` where `JSON.parse` throws or yields no object).
   */
  function PendingOf(st: Store, parse: string -> Option<JPRequest>, dir: OMap<string>, key: string): Option<PendingChange> {
    if !Truthy(st, key) then None
    else match parse(st[key])
      case None => None
      case Some(req) =>
        var mapped := if req.newStore != "" then Lookup(dir, Upper(Trim(req.newStore))) else "";
        Some(PendingChange(req, if mapped != "" then Some(mapped) else None))
  }

  function Flag(st: Store, parse: string -> Option<JPRequest>, dir: OMap<string>, dateStr: string, v: Visit): FlaggedVisit {
    var jpKey := JPKey(dateStr, v.store);
    FlaggedVisit(v, Truthy(st, TimeKey(dateStr, v.store)) || Truthy(st, jpKey), PendingOf(st, parse, dir, jpKey))
  }

  /** The `map` over one date's visits. */
  function Flags(st: Store, parse: string -> Option<JPRequest>, dir: OMap<string>, dateStr: string, visits: seq<Visit>)
    : (r: seq<FlaggedVisit>)
    ensures |r| == |visits|
    ensures forall i :: 0 <= i < |visits| ==> r[i] == Flag(st, parse, dir, dateStr, visits[i])
  {
    seq(|visits|, i requires 0 <= i < |visits| => Flag(st, parse, dir, dateStr, visits[i]))
  }

  /** One entry of the day list: a date and its flagged visits. */
  datatype DateGroup = DateGroup(dateStr: string, visits: seq<FlaggedVisit>)

  /**
   * Each flagged visit keeps every field of its visit; it is pending exactly when a non-empty
   * entry is stored under its time-change or its store-change key; it carries a change only when
   * the store-change entry parses, and that change has a new client exactly when its new store,
   * trimmed and upper-cased, maps to a non-empty client, which is then that client.
   */
  lemma FlagsMeaning(st: Store, parse: string -> Option<JPRequest>, dir: OMap<string>, dateStr: string,
                     visits: seq<Visit>, i: nat)
    requires i < |visits|
    ensures var f := Flags(st, parse, dir, dateStr, visits)[i];
      var jpKey := JPKey(dateStr, visits[i].store);
      var timeKey := TimeKey(dateStr, visits[i].store);
      && f.visit == visits[i]
      && (f.hasPending <==> (timeKey in st && st[timeKey] != "") || (jpKey in st && st[jpKey] != ""))
      && (f.pendingChange.Some? <==> jpKey in st && st[jpKey] != "" && parse(st[jpKey]).Some?)
      && (f.pendingChange.Some? ==>
            var req := f.pendingChange.value.request;
            var k := Upper(Trim(req.newStore));
            && req == parse(st[jpKey]).value
            && (f.pendingChange.value.newClient.Some? <==> req.newStore != "" && k in dir.vals && dir.vals[k] != "")
            && (f.pendingChange.value.newClient.Some? ==> f.pendingChange.value.newClient.value == dir.vals[k]))
  {
  }

  // ---------------------------------------------------------------------------------------------
  // The stores the consultant may pick

  /** The store a row names: its `LOJA`, trimmed, when it is set. */
  function StoreName(row: Row): Option<string> {
    var s := Value(row, StoreColumns);
    if s != "" then Some(Trim(s)) else None
  }

  /** The store names of the rows that have one, in order. */
  function StoreNames(rows: seq<Row>): seq<string> {
    Collect(rows, StoreName)
  }

  /** The store set: the base rows' names for this consultant, else the names in the consultant's visits. */
  function StoreSet(storesData: seq<Row>, myVisits: seq<Row>, user: string): seq<string> {
    var base := Dedup(StoreNames(MyVisits(storesData, user)));
    if base != [] then base else Dedup(StoreNames(myVisits))
  }

  /** `Array.from(stores).sort()`. */
  function AvailableStores(storesData: seq<Row>, myVisits: seq<Row>, user: string): seq<string> {
    Sort(StoreSet(storesData, myVisits, user))
  }

  /** One more base row adds its store name when the row is the consultant's and names a store. */
  lemma StoreNamesStep(storesData: seq<Row>, user: string, i: nat)
    requires i < |storesData|
    ensures var row := storesData[i]; var before := StoreNames(MyVisits(storesData[..i], user));
      StoreNames(MyVisits(storesData[..i + 1], user))
        == if Mine(row, user) && StoreName(row).Some? then before + [StoreName(row).value] else before
  {
    var row := storesData[i];
    FilterPrefix(storesData, i, (row: Row) => Mine(row, user));
    if Mine(row, user) {
      CollectSnoc(MyVisits(storesData[..i], user), row, StoreName);
    }
  }

  /** One base row of the first `forEach`: its trimmed store joins the set when the row is the consultant's. */
  method CollectStore(storesData: seq<Row>, user: string, i: nat, stores: seq<string>) returns (stores': seq<string>)
    requires i < |storesData|
    requires stores == Dedup(StoreNames(MyVisits(storesData[..i], user)))
    ensures stores' == Dedup(StoreNames(MyVisits(storesData[..i + 1], user)))
  {
    var row := storesData[i];
    StoreNamesStep(storesData, user, i);
    var names := StoreNames(MyVisits(storesData[..i], user));
    stores' := stores;
    var consul := GetValue(row, ConsultantColumns);
    if consul != "" && Contains(Upper(consul), Upper(user)) {
      var storeName := GetValue(row, StoreColumns);
      if storeName != "" {
        DedupSnoc(names, Trim(storeName));
        if Trim(storeName) !in stores {
          stores' := stores + [Trim(storeName)];
        }
      }
    }
  }

  method ExtractStores(storesData: seq<Row>, myVisits: seq<Row>, user: string) returns (r: seq<string>)
    ensures r == AvailableStores(storesData, myVisits, user)
  {
    var stores: seq<string> := [];
    var i := 0;
    while i < |storesData|
      invariant 0 <= i <= |storesData|
      invariant stores == Dedup(StoreNames(MyVisits(storesData[..i], user)))
    {
      stores := CollectStore(storesData, user, i, stores);
      i := i + 1;
    }
    assert storesData[..i] == storesData;
    if |stores| == 0 {
      var j := 0;
      while j < |myVisits|
        invariant 0 <= j <= |myVisits|
        invariant stores == Dedup(StoreNames(myVisits[..j]))
      {
        CollectPrefix(myVisits, j, StoreName);
        var storeName := GetValue(myVisits[j], StoreColumns);
        if storeName != "" {
          DedupSnoc(StoreNames(myVisits[..j]), Trim(storeName));
          if Trim(storeName) !in stores {
            stores := stores + [Trim(storeName)];
          }
        }
        j := j + 1;
      }
      assert myVisits[..j] == myVisits;
    }
    r := Sort(stores);
  }

  /** Some base row of this consultant names a store. */
  predicate HasBaseStore(storesData: seq<Row>, user: string) {
    exists i :: 0 <= i < |storesData| && Mine(storesData[i], user) && StoreName(storesData[i]).Some?
  }

  /** `x` is a store of the base set: the trimmed name of a base row of this consultant. */
  lemma BaseStoresMembers(storesData: seq<Row>, user: string, x: string)
    ensures x in Dedup(StoreNames(MyVisits(storesData, user)))
        <==> exists i :: 0 <= i < |storesData| && Mine(storesData[i], user) && StoreName(storesData[i]) == Some(x)
  {
    var mine := MyVisits(storesData, user);
    CollectMembers(mine, StoreName, x);
    MyVisitsMembers(storesData, user);
    if x in StoreNames(mine) {
      var k :| 0 <= k < |mine| && StoreName(mine[k]) == Some(x);
      assert mine[k] in mine;
      var i :| 0 <= i < |storesData| && storesData[i] == mine[k];
    }
    if exists i :: 0 <= i < |storesData| && Mine(storesData[i], user) && StoreName(storesData[i]) == Some(x) {
      var i :| 0 <= i < |storesData| && Mine(storesData[i], user) && StoreName(storesData[i]) == Some(x);
      assert storesData[i] in mine;
      var k :| 0 <= k < |mine| && mine[k] == storesData[i];
    }
  }

  /** The base set is empty exactly when no base row of this consultant names a store. */
  lemma BaseStoresEmpty(storesData: seq<Row>, user: string)
    ensures Dedup(StoreNames(MyVisits(storesData, user))) == [] <==> !HasBaseStore(storesData, user)
  {
    var base := Dedup(StoreNames(MyVisits(storesData, user)));
    if HasBaseStore(storesData, user) {
      var i :| 0 <= i < |storesData| && Mine(storesData[i], user) && StoreName(storesData[i]).Some?;
      BaseStoresMembers(storesData, user, StoreName(storesData[i]).value);
    } else if base != [] {
      BaseStoresMembers(storesData, user, base[0]);
    }
  }

  /**
   * The list offered is strictly ascending and holds the trimmed names of the base rows of this
   * consultant that have a store; when there is no such row, the names in the consultant's visits.
   */
  lemma AvailableStoresMeaning(storesData: seq<Row>, myVisits: seq<Row>, user: string, x: string)
    ensures var r := AvailableStores(storesData, myVisits, user);
      && (forall i, j :: 0 <= i < j < |r| ==> Leq(r[i], r[j]) && r[i] != r[j])
      && (HasBaseStore(storesData, user) ==>
            (x in r <==> exists i :: 0 <= i < |storesData| && Mine(storesData[i], user) && StoreName(storesData[i]) == Some(x)))
      && (!HasBaseStore(storesData, user) ==>
            (x in r <==> exists i :: 0 <= i < |myVisits| && StoreName(myVisits[i]) == Some(x)))
  {
    SortDistinct(StoreSet(storesData, myVisits, user));
    BaseStoresEmpty(storesData, user);
    BaseStoresMembers(storesData, user, x);
    CollectMembers(myVisits, StoreName, x);
  }
}
