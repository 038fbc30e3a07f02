/**
 * The visitor record shared by both copies of the tracker: the in-memory
 * record, its stored JSON shape, the backing file as an abstract slot, and the
 * JavaScript `Set<string>` of fingerprints, which keeps insertion order.
 */
module VisitorStore {
  import opened Wrappers
  import opened Sequences

  /** A clock reading, `new Date().toISOString()`: never the empty string. */
  type Timestamp = s: string | |s| > 0 witness "1970-01-01T00:00:00.000Z"

  // ---------------------------------------------------------------------------
  // A JavaScript Set<string>: its elements in insertion order, each once.

  /** The elements of an insertion-ordered set, as a mathematical set. */
  function Elements(s: seq<string>): set<string> {
    set x | x in s
  }

  /** `set.add(x)`: appends `x` at the end unless it is already there. */
  function SetAdd(s: seq<string>, x: string): (r: seq<string>)
    ensures Distinct(s) ==> Distinct(r)
    ensures x in r
    ensures |s| <= |r| && r[..|s|] == s
    ensures |r| == if x in s then |s| else |s| + 1
  {
    if x in s then s else s + [x]
  }

  /** After `set.add(x)` the set holds exactly its old elements and `x`. */
  lemma SetAddElements(s: seq<string>, x: string)
    ensures Elements(SetAdd(s, x)) == Elements(s) + {x}
  {
  }

  /** `new Set(list)`: the list's distinct elements in the order of their first occurrence. */
  function SetOf(xs: seq<string>): (r: seq<string>)
    ensures Distinct(r)
    ensures Distinct(xs) ==> r == xs
  {
    if xs == [] then []
    else
      SplitLast(xs);
      SetAdd(SetOf(xs[..|xs| - 1]), xs[|xs| - 1])
  }

  /** `new Set(list)` holds exactly the entries of the list. */
  lemma {:induction false} SetOfElements(xs: seq<string>)
    ensures Elements(SetOf(xs)) == Elements(xs)
    decreases |xs|
  {
    if xs != [] {
      var init := xs[..|xs| - 1];
      SetOfElements(init);
      SetAddElements(SetOf(init), xs[|xs| - 1]);
      SplitLast(xs);
    }
  }

  /** A set holds as many elements as its insertion-ordered listing has entries. */
  lemma {:induction false} DistinctSize(s: seq<string>)
    ensures Distinct(s) ==> |Elements(s)| == |s|
  {
    if s != [] && Distinct(s) {
      var init := s[..|s| - 1];
      SplitLast(s);
      DistinctSize(init);
      assert Elements(s) == Elements(init) + {s[|s| - 1]};
      assert s[|s| - 1] !in Elements(init);
    }
  }

  // ---------------------------------------------------------------------------
  // The record and its stored form

  /** The in-memory record: a visit counter, the fingerprint set and the time of the last update. */
  datatype VisitorData = VisitorData(totalVisits: int, uniqueVisitors: seq<string>, lastUpdated: string)

  /** What the public operations report. */
  datatype VisitorStats = VisitorStats(totalVisits: int, uniqueVisitors: int)

  /**
   * The stored JSON object after parsing: each field may be missing (`None`).
   * The counter is an integer and the visitor list a list of strings; other JSON
   * values in these fields are not modelled.
   */
  datatype Document = Document(totalVisits: Option<int>, uniqueVisitors: Option<seq<string>>, lastUpdated: Option<string>)

  /**
   * The backing file `visitor-count.json`: absent or unreadable; present but not a
   * JSON object (`JSON.parse` throws, or yields null so that field access throws);
   * or a parsed object.
   */
  datatype Slot = Missing | Unparsable | Stored(doc: Document)

  /** The serialisable form written to the file: the set becomes a list in insertion order. */
  function Serialize(d: VisitorData): (doc: Document)
    ensures doc.totalVisits == Some(d.totalVisits)
    ensures doc.uniqueVisitors == Some(d.uniqueVisitors)
    ensures doc.lastUpdated == Some(d.lastUpdated)
  {
    Document(Some(d.totalVisits), Some(d.uniqueVisitors), Some(d.lastUpdated))
  }

  /**
   * The record built from a parsed object, with its field defaults: a falsy counter
   * reads as 0, a missing list as the empty set, a missing or empty timestamp as `now`.
   */
  function Deserialize(doc: Document, now: Timestamp): (d: VisitorData)
    ensures d.totalVisits == doc.totalVisits.GetOr(0)
    ensures d.uniqueVisitors == SetOf(doc.uniqueVisitors.GetOr([]))
    ensures Distinct(d.uniqueVisitors)
    ensures d.lastUpdated != ""
    ensures doc.lastUpdated.Some? && doc.lastUpdated.value != "" ==> d.lastUpdated == doc.lastUpdated.value
    ensures doc.lastUpdated.None? || doc.lastUpdated.value == "" ==> d.lastUpdated == now
  {
    var total := if doc.totalVisits.Some? && doc.totalVisits.value != 0 then doc.totalVisits.value else 0;
    var list := if doc.uniqueVisitors.Some? then doc.uniqueVisitors.value else [];
    var stamp := if doc.lastUpdated.Some? && doc.lastUpdated.value != "" then doc.lastUpdated.value else now;
    VisitorData(total, SetOf(list), stamp)
  }

  /**
   * The record after one visit: one more visit, the request's fingerprint (if
   * any) added to the set, and the visit's time as the timestamp.
   */
  function Visit(d: VisitorData, id: Option<string>, now: Timestamp): (r: VisitorData)
    ensures r.totalVisits == d.totalVisits + 1
    ensures |d.uniqueVisitors| <= |r.uniqueVisitors| && r.uniqueVisitors[..|d.uniqueVisitors|] == d.uniqueVisitors
    ensures Distinct(d.uniqueVisitors) ==> Distinct(r.uniqueVisitors)
    ensures r.lastUpdated == now
  {
    var counted := d.(totalVisits := d.totalVisits + 1);
    var tracked := if id.Some? then counted.(uniqueVisitors := SetAdd(counted.uniqueVisitors, id.value)) else counted;
    tracked.(lastUpdated := now)
  }

  // ---------------------------------------------------------------------------
  // Properties of the record

  /** A record is the visited one when each of its fields is. */
  lemma VisitByFields(d: VisitorData, id: Option<string>, now: Timestamp, r: VisitorData)
    requires r.totalVisits == d.totalVisits + 1
    requires r.uniqueVisitors == if id.Some? then SetAdd(d.uniqueVisitors, id.value) else d.uniqueVisitors
    requires r.lastUpdated == now
    ensures r == Visit(d, id, now)
  {
  }

  /** A parsed object's set holds exactly the fingerprints of its stored list, duplicates aside. */
  lemma DeserializeElements(doc: Document, now: Timestamp)
    ensures Elements(Deserialize(doc, now).uniqueVisitors) == Elements(doc.uniqueVisitors.GetOr([]))
  {
    SetOfElements(doc.uniqueVisitors.GetOr([]));
  }

  /** A visit adds the request's fingerprint, if any, to the set and nothing else. */
  lemma VisitElements(d: VisitorData, id: Option<string>, now: Timestamp)
    ensures Elements(Visit(d, id, now).uniqueVisitors) == Elements(d.uniqueVisitors) + (if id.Some? then {id.value} else {})
  {
    if id.Some? {
      SetAddElements(d.uniqueVisitors, id.value);
    }
  }

  /**
   * Writing a record and reading it back gives back the counter, the set (in its
   * order) and the timestamp; only an empty timestamp is replaced by the clock.
   */
  lemma RoundTrip(d: VisitorData, now: Timestamp)
    requires Distinct(d.uniqueVisitors)
    ensures Deserialize(Serialize(d), now) == if d.lastUpdated != "" then d else d.(lastUpdated := now)
  {
  }

  /** Duplicate entries in a stored list collapse into one set element each. */
  lemma DuplicatesCollapse(x: string, now: Timestamp)
    ensures Deserialize(Document(Some(3), Some([x, x, x]), None), now).uniqueVisitors == [x]
  {
    var one, two, three := [x], [x, x], [x, x, x];
    assert one[..0] == [] && two[..1] == one && three[..2] == two;
    assert SetOf(one) == [x];
    assert SetOf(two) == SetAdd(SetOf(one), x);
    assert SetOf(three) == SetAdd(SetOf(two), x);
  }

  /** The set changes size by at most one per visit, and only when the fingerprint is new. */
  lemma VisitAddsAtMostOne(d: VisitorData, id: Option<string>, now: Timestamp)
    requires Distinct(d.uniqueVisitors)
    ensures |Visit(d, id, now).uniqueVisitors| ==
            if id.Some? && id.value !in d.uniqueVisitors then |d.uniqueVisitors| + 1 else |d.uniqueVisitors|
  {
  }

  /** The record after a run of visits, one per entry of `ids` (`None` for a visit without headers). */
  function VisitAll(d: VisitorData, ids: seq<Option<string>>, now: Timestamp): VisitorData
    decreases |ids|
  {
    if ids == [] then d else Visit(VisitAll(d, ids[..|ids| - 1], now), ids[|ids| - 1], now)
  }

  /** The fingerprints that occur in a run of visits. */
  function Seen(ids: seq<Option<string>>): set<string> {
    set i | 0 <= i < |ids| && ids[i].Some? :: ids[i].value
  }

  /**
   * After N successful visits the counter has grown by exactly N, the set holds
   * exactly the old fingerprints and the new ones, and, when no more fingerprints
   * than visits were counted before, that still holds afterwards.
   */
  lemma {:induction false} VisitAllCounts(d: VisitorData, ids: seq<Option<string>>, now: Timestamp)
    requires Distinct(d.uniqueVisitors)
    ensures VisitAll(d, ids, now).totalVisits == d.totalVisits + |ids|
    ensures Distinct(VisitAll(d, ids, now).uniqueVisitors)
    ensures Elements(VisitAll(d, ids, now).uniqueVisitors) == Elements(d.uniqueVisitors) + Seen(ids)
    ensures |d.uniqueVisitors| <= d.totalVisits ==> |VisitAll(d, ids, now).uniqueVisitors| <= VisitAll(d, ids, now).totalVisits
    decreases |ids|
  {
    if ids != [] {
      var init := ids[..|ids| - 1];
      var last := ids[|ids| - 1];
      VisitAllCounts(d, init, now);
      var mid := VisitAll(d, init, now);
      VisitAddsAtMostOne(mid, last, now);
      VisitElements(mid, last, now);
      SeenSplit(ids);
    }
  }

  /** The fingerprints of a run of visits are those of its front and that of its last visit. */
  lemma SeenSplit(ids: seq<Option<string>>)
    requires ids != []
    ensures var last := ids[|ids| - 1];
            Seen(ids) == Seen(ids[..|ids| - 1]) + (if last.Some? then {last.value} else {})
  {
    var init := ids[..|ids| - 1];
    var last := ids[|ids| - 1];
    forall v | v in Seen(ids) ensures v in Seen(init) + (if last.Some? then {last.value} else {}) {
      var i :| 0 <= i < |ids| && ids[i].Some? && ids[i].value == v;
      if i < |ids| - 1 { assert init[i] == ids[i]; }
    }
    forall v | v in Seen(init) ensures v in Seen(ids) {
      var i :| 0 <= i < |init| && init[i].Some? && init[i].value == v;
      assert ids[i] == init[i];
    }
  }

  lemma RepeatVisitCountsOnce(d: VisitorData, id: string, now: Timestamp)
    requires Distinct(d.uniqueVisitors)
    ensures Visit(Visit(d, Some(id), now), Some(id), now).uniqueVisitors == Visit(d, Some(id), now).uniqueVisitors
    ensures |Visit(Visit(d, Some(id), now), Some(id), now).uniqueVisitors| <= |d.uniqueVisitors| + 1
  {
  }

  /** Two visits by two new, distinct fingerprints grow the set by exactly two. */
  lemma TwoNewVisitorsCountTwice(d: VisitorData, a: string, b: string, now: Timestamp)
    requires Distinct(d.uniqueVisitors)
    requires a != b && a !in d.uniqueVisitors && b !in d.uniqueVisitors
    ensures |Visit(Visit(d, Some(a), now), Some(b), now).uniqueVisitors| == |d.uniqueVisitors| + 2
  {
    var once := Visit(d, Some(a), now);
    assert b !in Elements(once.uniqueVisitors);
  }
}
