/**
 * The browser's `localStorage` as the screens use it: a map from keys to strings. Request
 * records are stored in serialised form; serialising and parsing them is left to functions the
 * callers pass in.
 */
module Storage {

  type Store = map<string, string>

  /** A store change saved for one visit under its `pendingJPChange-` key. */
  datatype JPRequest = JPRequest(
    originalStore: string, newStore: string, newTime: string, newTimeEnd: string,
    newDate: string, visitType: string, isMassEdit: bool)

  /** A time change saved for one visit under its `pendingTimeChange-` key. */
  datatype TimeRequest = TimeRequest(originalTime: string, newTime: string, isMassEdit: bool)

  /** `!!localStorage.getItem(key)`: present and not the empty string. */
  predicate Truthy(st: Store, key: string) {
    key in st && st[key] != ""
  }

  /** The key of one visit's pending requests: its date and its store, joined by `-`. */
  function VisitKey(date: string, store: string): string {
    date + "-" + store
  }

  function JPKey(date: string, store: string): string {
    "pendingJPChange-" + VisitKey(date, store)
  }

  function TimeKey(date: string, store: string): string {
    "pendingTimeChange-" + VisitKey(date, store)
  }

  /** The two request keys never coincide, so a visit can hold both kinds of request at once. */
  lemma KeysDiffer(d1: string, s1: string, d2: string, s2: string)
    ensures JPKey(d1, s1) != TimeKey(d2, s2)
  {
    assert JPKey(d1, s1)[7] == 'J';
    assert TimeKey(d2, s2)[7] == 'T';
  }
}
