/**
 * The visitor-tracking service: one object owning the backing file, with the
 * read, write, fingerprint, increment and query operations. The file is an
 * abstract slot plus a flag saying whether writes to it succeed; the clock is
 * the `now` parameter.
 */
module VisitorTracker {
  import opened Wrappers
  import opened Sequences
  import opened VisitorStore
  import Fingerprint
  import NumberText

  class VisitorService {
    /** The content of the counter file. */
    var store: Slot
    /** Whether `fs.writeFile` on the counter file succeeds. */
    var writable: bool

    constructor (store: Slot, writable: bool)
      ensures this.store == store && this.writable == writable
    {
      this.store := store;
      this.writable := writable;
    }

    /**
     * Reads the file. It never fails: a missing or corrupt file reads as the
     * default record, a parsed object through the field defaults.
     */
    function ReadVisitorData(now: Timestamp): (data: VisitorData)
      reads this
      ensures Distinct(data.uniqueVisitors) && data.lastUpdated != ""
      ensures !store.Stored? ==> data.totalVisits == 0 && data.uniqueVisitors == [] && data.lastUpdated == now
      ensures store.Stored? ==> data == Deserialize(store.doc, now)
    {
      match store
      case Stored(doc) => Deserialize(doc, now)
      case _ => GetDefaultVisitorData(now)
    }

    /**
     * Writes the record, replacing the file's content; fails, changing nothing,
     * when the file is not writable. A successful write reads back unchanged.
     */
    method WriteVisitorData(data: VisitorData) returns (ok: bool)
      modifies this`store
      ensures ok == writable
      ensures store == if ok then Stored(Serialize(data)) else old(store)
      ensures ok && Distinct(data.uniqueVisitors) && data.lastUpdated != "" ==>
                forall now: Timestamp :: ReadVisitorData(now) == data
    {
      ok := writable;
      if ok {
        store := Stored(Serialize(data));
      }
    }

    /** The record of an empty store: no visits, no visitors, stamped with the clock. */
    static function GetDefaultVisitorData(now: Timestamp): (d: VisitorData)
      ensures d.totalVisits == 0 && |d.uniqueVisitors| == 0 && d.lastUpdated == now
    {
      VisitorData(0, [], now)
    }

    /** The statistics of a record: its counter and its number of distinct fingerprints. */
    static function ToStats(data: VisitorData): (s: VisitorStats)
      ensures s.totalVisits == data.totalVisits
      ensures Distinct(data.uniqueVisitors) ==> s.uniqueVisitors == |Elements(data.uniqueVisitors)|
    {
      DistinctSize(data.uniqueVisitors);
      VisitorStats(data.totalVisits, |data.uniqueVisitors|)
    }

    /**
     * The fingerprint of a request: the hash loop over the code units of
     * address + "-" + agent, written with the shift and the ToInt32 of the source.
     */
    static method GenerateVisitorId(request: Fingerprint.Headers) returns (id: string)
      ensures id == Fingerprint.VisitorId(request)
    {
      var ip := Fingerprint.ClientAddress(request);
      var userAgent := Fingerprint.UserAgent(request);
      var combined := ip + "-" + userAgent;
      assert combined == Fingerprint.Combined(request);
      var units := Fingerprint.Utf16(combined);
      var hash := 0;
      for i := 0 to |units|
        invariant hash == Fingerprint.HashOf(units[..i])
      {
        var unit := units[i];
        Fingerprint.HashOfNextPrefix(units, i);
        hash := Fingerprint.Wrap32(Fingerprint.Wrap32(hash * 32) - hash + unit);
      }
      assert units[..|units|] == units;
      id := NumberText.Decimal(hash);
    }

    /** The fingerprint a visit adds: that of the request, or none for a visit without one. */
    static function VisitorIdOf(request: Option<Fingerprint.Headers>): (id: Option<string>)
      ensures id.Some? <==> request.Some?
      ensures request.Some? ==> id.value == Fingerprint.VisitorId(request.value)
    {
      if request.Some? then Some(Fingerprint.VisitorId(request.value)) else None
    }

    /**
     * Counts a visit: reads the record, adds one visit and the request's
     * fingerprint, stamps it and writes it back, returning its statistics. If
     * the write fails the file is unchanged and the result is exactly {1, 1}.
     */
    method IncrementVisitorCount(request: Option<Fingerprint.Headers>, now: Timestamp) returns (stats: VisitorStats)
      modifies this`store
      ensures var visited := Visit(old(ReadVisitorData(now)), VisitorIdOf(request), now);
              writable ==> store == Stored(Serialize(visited)) && stats == ToStats(visited)
      ensures writable ==> ReadVisitorData(now) == Visit(old(ReadVisitorData(now)), VisitorIdOf(request), now)
      ensures !writable ==> store == old(store) && stats == VisitorStats(1, 1)
    {
      var data := ReadVisitorData(now);
      ghost var before := data;
      ghost var id: Option<string> := None;
      data := data.(totalVisits := data.totalVisits + 1);
      assert data.uniqueVisitors == before.uniqueVisitors;
      if request.Some? {
        var visitorId := GenerateVisitorId(request.value);
        id := Some(visitorId);
        data := data.(uniqueVisitors := SetAdd(data.uniqueVisitors, visitorId));
      }
      assert data.uniqueVisitors == if id.Some? then SetAdd(before.uniqueVisitors, id.value) else before.uniqueVisitors;
      data := data.(lastUpdated := now);
      VisitByFields(before, id, now, data);
      var ok := WriteVisitorData(data);
      if !ok {
        return VisitorStats(1, 1);
      }
      assert ReadVisitorData(now) == data;
      stats := ToStats(data);
    }

    /**
     * Reports the statistics of the stored record without changing the file. A
     * missing or corrupt file reports {0, 0}; the source's own fallback for a
     * failed read is the same value and cannot be reached, since reading never fails.
     */
    method GetVisitorCount(now: Timestamp) returns (stats: VisitorStats)
      ensures stats == ToStats(ReadVisitorData(now))
      ensures !store.Stored? ==> stats == VisitorStats(0, 0)
    {
      var data := ReadVisitorData(now);
      stats := ToStats(data);
    }
  }

  /** A fingerprint is digits with an optional leading minus, so no text with a letter is one. */
  lemma FingerprintHasNoLetters(h: Fingerprint.Headers, s: string, k: nat)
    requires k < |s| && 'a' <= s[k] <= 'z'
    ensures Fingerprint.VisitorId(h) != s
  {
  }

  /** A first visit without headers to an empty store: one visit, no fingerprint. */
  lemma FirstVisitWithoutHeaders(now: Timestamp)
    ensures VisitorService.ToStats(Visit(VisitorService.GetDefaultVisitorData(now), None, now)) == VisitorStats(1, 0)
  {
  }

  /**
   * A store holding 10 visits and the one fingerprint "existing-visitor", visited
   * by any request: 11 visits and 2 fingerprints.
   */
  lemma VisitToExistingRecord(h: Fingerprint.Headers, now: Timestamp)
    ensures var stored := Document(Some(10), Some(["existing-visitor"]), Some("2023-01-01T00:00:00.000Z"));
            VisitorService.ToStats(Visit(Deserialize(stored, now), Some(Fingerprint.VisitorId(h)), now)) == VisitorStats(11, 2)
  {
    FingerprintHasNoLetters(h, "existing-visitor", 0);
  }
}
