/**
 * The server actions behind the `/api/visit` route: a second copy of the
 * tracker written as module-level functions over one module-level counter
 * file. The file is modelled as an object holding the slot, so that the
 * functions become its methods; their contracts are those of the service.
 */
module Actions {
  import opened Wrappers
  import opened Sequences
  import opened VisitorStore
  import Fingerprint
  import NumberText
  import VisitorTracker

  /** The module-level `COUNTER_FILE` and the success of writes to it. */
  class CounterFile {
    var store: Slot
    var writable: bool

    constructor (store: Slot, writable: bool)
      ensures this.store == store && this.writable == writable
    {
      this.store := store;
      this.writable := writable;
    }

    /** Reads the file; a missing or corrupt file gives the inline default `{0, empty set, now}`. */
    function ReadVisitorData(now: Timestamp): (data: VisitorData)
      reads this
      ensures Distinct(data.uniqueVisitors) && data.lastUpdated != ""
      ensures !store.Stored? ==> data == VisitorTracker.VisitorService.GetDefaultVisitorData(now)
      ensures store.Stored? ==> data == Deserialize(store.doc, now)
    {
      match store
      case Stored(doc) => Deserialize(doc, now)
      case _ => VisitorData(0, [], now)
    }

    /** Writes the record over the file's content, or fails without changing it. */
    method WriteVisitorData(data: VisitorData) returns (ok: bool)
      modifies this`store
      ensures ok == writable
      ensures store == if ok then Stored(Serialize(data)) else old(store)
      ensures ok && Distinct(data.uniqueVisitors) && data.lastUpdated != "" ==>
                forall now: Timestamp :: ReadVisitorData(now) == data
    {
      ok := writable;
      if ok {
        store := Stored(Serialize(data));
      }
    }

    /** The same fingerprint loop as the service's, so both copies give every request the same id. */
    static method GenerateVisitorId(request: Fingerprint.Headers) returns (id: string)
      ensures id == Fingerprint.VisitorId(request)
    {
      var ip := Fingerprint.ClientAddress(request);
      var userAgent := Fingerprint.UserAgent(request);
      var combined := ip + "-" + userAgent;
      assert combined == Fingerprint.Combined(request);
      var units := Fingerprint.Utf16(combined);
      var hash := 0;
      for i := 0 to |units|
        invariant hash == Fingerprint.HashOf(units[..i])
      {
        var unit := units[i];
        Fingerprint.HashOfNextPrefix(units, i);
        hash := Fingerprint.Wrap32(Fingerprint.Wrap32(hash * 32) - hash + unit);
      }
      assert units[..|units|] == units;
      id := NumberText.Decimal(hash);
    }

    /**
     * Counts a visit exactly as the service does, with the statistics built
     * inline; a failed write leaves the file alone and reports {1, 1}.
     */
    method IncrementVisitorCount(request: Option<Fingerprint.Headers>, now: Timestamp) returns (stats: VisitorStats)
      modifies this`store
      ensures var visited := Visit(old(ReadVisitorData(now)), VisitorTracker.VisitorService.VisitorIdOf(request), now);
              writable ==> store == Stored(Serialize(visited)) && stats == VisitorTracker.VisitorService.ToStats(visited)
      ensures writable ==> ReadVisitorData(now) == Visit(old(ReadVisitorData(now)), VisitorTracker.VisitorService.VisitorIdOf(request), now)
      ensures !writable ==> store == old(store) && stats == VisitorStats(1, 1)
    {
      var data := ReadVisitorData(now);
      ghost var before := data;
      ghost var id: Option<string> := None;
      data := data.(totalVisits := data.totalVisits + 1);
      assert data.uniqueVisitors == before.uniqueVisitors;
      if request.Some? {
        var visitorId := GenerateVisitorId(request.value);
        id := Some(visitorId);
        data := data.(uniqueVisitors := SetAdd(data.uniqueVisitors, visitorId));
      }
      assert data.uniqueVisitors == if id.Some? then SetAdd(before.uniqueVisitors, id.value) else before.uniqueVisitors;
      data := data.(lastUpdated := now);
      VisitByFields(before, id, now, data);
      var ok := WriteVisitorData(data);
      if !ok {
        return VisitorStats(1, 1);
      }
      assert ReadVisitorData(now) == data;
      stats := VisitorStats(data.totalVisits, |data.uniqueVisitors|);
    }

    /** Reports `{total, number of fingerprints}` of the stored record; the file is not touched. */
    method GetVisitorCount(now: Timestamp) returns (stats: VisitorStats)
      ensures stats == VisitorTracker.VisitorService.ToStats(ReadVisitorData(now))
      ensures !store.Stored? ==> stats == VisitorStats(0, 0)
    {
      var data := ReadVisitorData(now);
      stats := VisitorStats(data.totalVisits, |data.uniqueVisitors|);
    }
  }
}
