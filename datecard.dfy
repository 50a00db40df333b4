/**
 * One date of the day list (DateCard.jsx): the day badge and weekday label of the header, and
 * for each visit either the standard layout or, when a store change is pending, the swapped
 * layout with the original and the new store, the new time range and the client to visit.
 */
module DateCard {
  import opened Wrappers
  import opened Text
  import opened Seqs
  import opened Storage
  import opened Home

  // ---------------------------------------------------------------------------------------------
  // Header

  /** `date.split('/')[0]`. */
  function DayBadge(date: string): (r: string)
    ensures |r| <= |date| && date[..|r|] == r && '/' !in r
    ensures |r| == |date| || date[|r|] == '/'
  {
    SplitHead(date, '/');
    Split(date, '/')[0]
  }

  /** The characters the weekday label keeps: letters, the accented letters of Portuguese, `-` and white space. */
  predicate Allowed(c: char) {
    || 'a' <= c <= 'z' || 'A' <= c <= 'Z'
    || Accented(c)
    || c == '-' || IsSpace(c)
  }

  /** `çÇáÁéÉíÍóÓúÚãÃõÕâÂêÊ`. */
  predicate Accented(c: char) {
    c in "\U{00E7}\U{00C7}\U{00E1}\U{00C1}\U{00E9}\U{00C9}\U{00ED}\U{00CD}\U{00F3}\U{00D3}\U{00FA}\U{00DA}\U{00E3}\U{00C3}\U{00F5}\U{00D5}\U{00E2}\U{00C2}\U{00EA}\U{00CA}"
  }

  lemma UpperAccented(c: char)
    requires Accented(c)
    ensures Accented(UpperChar(c)) && UpperChar(UpperChar(c)) == UpperChar(c)
  {
  }

  lemma UpperSpace(c: char)
    requires IsSpace(c)
    ensures UpperChar(c) == c
  {
  }

  /** `(visits[0]?.weekday || '').replace(/[^...]/g, '').toUpperCase()`. */
  function WeekdayLabel(visits: seq<FlaggedVisit>): string {
    var weekday := if visits == [] then "" else visits[0].visit.weekday;
    Upper(Filter(weekday, Allowed))
  }

  lemma UpperAllowed(c: char)
    requires Allowed(c)
    ensures Allowed(UpperChar(c)) && UpperChar(UpperChar(c)) == UpperChar(c)
  {
    if Accented(c) {
      UpperAccented(c);
    } else if IsSpace(c) {
      UpperSpace(c);
    }
  }

  /**
   * The label holds only allowed characters, already upper-cased, one for each allowed character
   * of the first visit's weekday; so cleaning it again changes nothing.
   */
  lemma {:induction false} WeekdayLabelClean(visits: seq<FlaggedVisit>)
    ensures var r := WeekdayLabel(visits);
      && (forall i :: 0 <= i < |r| ==> Allowed(r[i]) && UpperChar(r[i]) == r[i])
      && Upper(Filter(r, Allowed)) == r
  {
    var weekday := if visits == [] then "" else visits[0].visit.weekday;
    var kept := Filter(weekday, Allowed);
    FilterMembers(weekday, Allowed);
    var r := WeekdayLabel(visits);
    forall i | 0 <= i < |r| ensures Allowed(r[i]) && UpperChar(r[i]) == r[i] {
      assert kept[i] in kept;
      UpperAllowed(kept[i]);
    }
    FilterAll(r, Allowed);
  }

  // ---------------------------------------------------------------------------------------------
  // The shifted end time

  /**
   * `Number(field)` on a field of a time: blank text is 0 and unsigned decimal digits are their
   * value; anything else is `NaN`, written `None`.
   */
  function NumberOf(s: string): Option<int> {
    var t := Trim(s);
    if t == "" then Some(0) else if AllDigits(t) then Some(DecimalValue(t)) else None
  }

  /** `const [h, m] = time.split(':').map(Number)`: a missing field is `undefined`, which computes as `NaN`. */
  function Field(time: string, i: nat): Option<int> {
    var parts := Split(time, ':');
    if i < |parts| then NumberOf(parts[i]) else None
  }

  /** JavaScript's `%` for a positive divisor: the remainder takes the sign of the dividend. */
  function JsRem(a: int, b: int): (r: int)
    requires b > 0
    ensures a >= 0 ==> 0 <= r < b
    ensures a < 0 ==> -b < r <= 0
  {
    if a >= 0 then a % b else -((-a) % b)
  }

  /** `String(n).padStart(2, '0')`. */
  function Pad2(n: int): string {
    PadStart2(IntToString(n))
  }

  /** `h * 60 + m` for the two fields of a time; `NaN` when either is. */
  function Minutes(time: string): Option<int> {
    match (Field(time, 0), Field(time, 1))
    case (Some(h), Some(m)) => Some(h * 60 + m)
    case _ => None
  }

  /**
   * `newEndTotal`: the new start plus the original duration, end minus start; `NaN` when any
   * of the three times is.
   */
  function EndTotal(checkIn: string, checkOut: string, newTime: string): Option<int> {
    match (Minutes(checkIn), Minutes(checkOut), Minutes(newTime))
    case (Some(start), Some(end), Some(newStart)) => Some(newStart + (end - start))
    case _ => None
  }

  /** `Math.floor(total / 60) % 24`. */
  function EndHour(total: int): int {
    JsRem(total / 60, 24)
  }

  /** `total % 60`. */
  function EndMinute(total: int): int {
    JsRem(total, 60)
  }

  /** `newEndStr`: the hour and minute of the total, each padded; `NaN` propagates. */
  function NewEndText(checkIn: string, checkOut: string, newTime: string): string {
    match EndTotal(checkIn, checkOut, newTime)
    case Some(total) => Pad2(EndHour(total)) + ":" + Pad2(EndMinute(total))
    case None => "NaN:NaN"
  }

  /** For a non-negative total the clock is in range and lands on the same minute of the day. */
  lemma ClockRange(total: int)
    requires total >= 0
    ensures 0 <= EndHour(total) < 24 && 0 <= EndMinute(total) < 60
    ensures (EndHour(total) * 60 + EndMinute(total)) % 1440 == total % 1440
  {
    var q := total / 60;
    var m := total % 60;
    var h := q % 24;
    assert total == 60 * q + m;
    assert q == 24 * (q / 24) + h;
    assert total == 1440 * (q / 24) + (h * 60 + m);
    ModShift(h * 60 + m, q / 24);
  }

  lemma ModShift(x: int, k: int)
    requires 0 <= x < 1440
    ensures (1440 * k + x) % 1440 == x % 1440
  {
  }

  lemma ModSub(a: int, b: int, c: int)
    requires a % 1440 == b % 1440
    ensures (a - c) % 1440 == (b - c) % 1440
  {
    assert a == 1440 * (a / 1440) + a % 1440;
    assert b == 1440 * (b / 1440) + b % 1440;
    assert a - c == 1440 * (a / 1440 - b / 1440) + (b - c);
    var d := a / 1440 - b / 1440;
    ModMultiple(b - c, d);
  }

  lemma ModMultiple(x: int, d: int)
    ensures (1440 * d + x) % 1440 == x % 1440
  {
    var r := x % 1440;
    var q := x / 1440;
    assert x == 1440 * q + r && 0 <= r < 1440;
    assert 1440 * d + x == 1440 * (d + q) + r;
  }

  /** A start minute plus a duration gives a clock time that lies that duration after the start, modulo a day. */
  lemma ShiftedClock(start: int, duration: int)
    requires start + duration >= 0
    ensures var total := start + duration;
      && 0 <= EndHour(total) < 24 && 0 <= EndMinute(total) < 60
      && (EndHour(total) * 60 + EndMinute(total) - start) % 1440 == duration % 1440
  {
    var total := start + duration;
    ClockRange(total);
    ModSub(EndHour(total) * 60 + EndMinute(total), total, start);
  }

  /** A number of minutes prints as its hour of the day and its minute, each padded to two characters. */
  lemma EndTextOf(checkIn: string, checkOut: string, newTime: string, total: int)
    requires EndTotal(checkIn, checkOut, newTime) == Some(total)
    ensures NewEndText(checkIn, checkOut, newTime) == Pad2(EndHour(total)) + ":" + Pad2(EndMinute(total))
  {
  }

  /** Without a `NaN` field the new end is the new start plus the original end minus the original start. */
  lemma EndTotalOf(checkIn: string, checkOut: string, newTime: string)
    requires Minutes(checkIn).Some? && Minutes(checkOut).Some? && Minutes(newTime).Some?
    ensures EndTotal(checkIn, checkOut, newTime) == Some(Minutes(newTime).value + (Minutes(checkOut).value - Minutes(checkIn).value))
  {
  }

  /** A `NaN` field anywhere turns the end into `NaN:NaN`. */
  lemma NaNEnd(checkIn: string, checkOut: string, newTime: string)
    requires Minutes(checkIn).None? || Minutes(checkOut).None? || Minutes(newTime).None?
    ensures NewEndText(checkIn, checkOut, newTime) == "NaN:NaN"
  {
  }

  lemma DigitsTrimmed(s: string)
    requires AllDigits(s)
    ensures Trim(s) == s
  {
    if s != [] {
      assert IsDigit(s[0]) && IsDigit(s[|s| - 1]);
      assert !IsSpace(s[0]) && !IsSpace(s[|s| - 1]);
    }
    TrimFixed(s);
  }

  lemma DigitsNoColon(s: string)
    requires AllDigits(s)
    ensures ':' !in s
  {
  }

  lemma Pad2Digits(n: nat)
    requires n < 100
    ensures |Pad2(n)| == 2 && AllDigits(Pad2(n)) && DecimalValue(Pad2(n)) == n
  {
    DecimalOfNat(n);
    var s := NatToString(n);
    if |s| == 1 {
      assert Pad2(n) == "0" + s;
      assert ("0" + s)[..1] == "0";
    }
  }

  /**
   * An hour and a minute in range print as `HH:MM`, which reads back as that hour and minute:
   * the shown end time is itself a well-formed time.
   */
  lemma ClockRoundTrip(h: nat, m: nat)
    requires h < 24 && m < 60
    ensures var r := Pad2(h) + ":" + Pad2(m);
      && |r| == 5 && r[2] == ':'
      && Field(r, 0) == Some(h) && Field(r, 1) == Some(m) && Minutes(r) == Some(h * 60 + m)
  {
    Pad2Digits(h);
    Pad2Digits(m);
    var a := Pad2(h);
    var b := Pad2(m);
    DigitsTrimmed(a);
    DigitsTrimmed(b);
    ClockSplit(a, b);
  }

  lemma ClockSplit(a: string, b: string)
    requires AllDigits(a) && AllDigits(b)
    ensures Split(a + ":" + b, ':') == [a, b]
  {
    DigitsNoColon(a);
    DigitsNoColon(b);
    SplitConcat(a, b, ':');
    SplitNoSep(a, ':');
    SplitNoSep(b, ':');
    assert a + ":" + b == a + [':'] + b;
  }

  // ---------------------------------------------------------------------------------------------
  // Layout of one visit

  datatype Layout =
    | Standard(time: string, store: string, client: Option<string>)
    | Swapped(originalTime: string, originalStore: string, newTime: string, newStore: string, client: Option<string>)

  /** What one visit of the card shows: the pending dot and one of the two layouts. */
  datatype Line = Line(dot: bool, layout: Layout)

  /** `visit.pendingChange && visit.pendingChange.newStore`. */
  predicate ShowsSwapped(v: FlaggedVisit) {
    v.pendingChange.Some? && v.pendingChange.value.request.newStore != ""
  }

  /** The time of the new row: the shifted range when the change has a new time, else the original. */
  function NewRowTime(v: Visit, req: JPRequest): string {
    if req.newTime != "" then req.newTime + " - " + NewEndText(v.checkIn, v.checkOut, req.newTime)
    else v.checkIn + " - " + v.checkOut
  }

  /** A client line, shown only for a non-empty client. */
  function Shown(client: string): Option<string> {
    if client != "" then Some(client) else None
  }

  function VisitLine(v: FlaggedVisit): (r: Line)
    ensures r.dot == v.hasPending
    ensures r.layout.Swapped? <==> ShowsSwapped(v)
  {
    var visit := v.visit;
    var original := visit.checkIn + " - " + visit.checkOut;
    if ShowsSwapped(v) then
      var change := v.pendingChange.value;
      Line(v.hasPending, Swapped(original, visit.store, NewRowTime(visit, change.request), change.request.newStore,
                                 Shown(OrElse(change.newClient.GetOr(""), visit.client))))
    else
      Line(v.hasPending, Standard(original, visit.store, Shown(visit.client)))
  }

  /**
   * The swapped layout names the old and the new store; without a new time its new row repeats
   * the original range; its client line shows the new store's client when it has one and
   * otherwise the same client line as the standard layout.
   */
  lemma SwappedLine(v: FlaggedVisit)
    requires ShowsSwapped(v)
    ensures var l := VisitLine(v).layout; var change := v.pendingChange.value;
      && l.originalStore == v.visit.store && l.newStore == change.request.newStore
      && l.originalTime == v.visit.checkIn + " - " + v.visit.checkOut
      && (change.request.newTime == "" ==> l.newTime == l.originalTime)
      && (change.newClient.Some? && change.newClient.value != "" ==> l.client == Some(change.newClient.value))
      && (change.newClient.None? ==> l.client == Shown(v.visit.client))
  {
  }

  /** The standard layout: the original range, the store and the client when there is one. */
  lemma StandardLine(v: FlaggedVisit)
    requires !ShowsSwapped(v)
    ensures var l := VisitLine(v).layout;
      && l == Standard(v.visit.checkIn + " - " + v.visit.checkOut, v.visit.store, Shown(v.visit.client))
      && (l.client.Some? <==> v.visit.client != "")
  {
  }

  /** A flagged visit built by the day list has a new client only when it is not empty. */
  lemma FlaggedClient(st: Store, parse: string -> Option<JPRequest>, dir: Ordered.OMap<string>, dateStr: string, v: Visit)
    requires ShowsSwapped(Flag(st, parse, dir, dateStr, v))
    ensures var f := Flag(st, parse, dir, dateStr, v); var l := VisitLine(f).layout;
      var change := f.pendingChange.value;
      && (change.newClient.Some? ==> l.client == Some(change.newClient.value))
      && (change.newClient.None? ==> l.client == Shown(v.client))
  {
  }
}
