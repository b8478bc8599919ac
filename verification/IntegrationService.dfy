/** The service as it updates its tables and its memory, call by call, proved against the stages of a report. */
module IntegrationService {
  import opened Wrappers
  import opened IntegrationStatus

  type Key = string

  class IntegrationStatusService {
    // The tables, and what memory keeps of each component.
    var components: map<Key, Component>
    var incidents: map<Key, seq<Incident>>
    var known: map<Key, Known>

    constructor ()
      ensures forall key :: CellOf(key) == EMPTY_CELL
    {
      components, incidents, known := map[], map[], map[];
    }

    ghost function CellOf(key: Key): Cell
      reads this
    {
      Cell(if key in components then Some(components[key]) else None,
           if key in incidents then incidents[key] else [],
           if key in known then Some(known[key]) else None)
    }

    /** What is left once the queue has handled the end of a report: one that threw is forgotten. */
    ghost function Settled(key: Key, threw: bool): Cell
      reads this
    {
      if threw then CellOf(key).Forget() else CellOf(key)
    }

    /** Puts the component in memory, from its row or from one inserted now; a throw leaves it out. */
    method LoadComponent(key: Key, o: Outcome) returns (threw: bool)
      modifies this`components, this`known
      ensures CellOf(key) == Load(old(CellOf(key)), o)
      ensures threw <==> key !in known
      ensures forall other | other != key :: CellOf(other) == old(CellOf(other))
    {
      if key in known {
        return false;
      }
      if o.Applied() && key !in components {
        components := components[key := Component(None, None, None)];
      }
      if o.Threw() {
        return true;
      }
      known := known[key := Known(components[key].openIncident, 0)];
      threw := false;
    }

    /** A success: ends what was open, or stamps the row unless that was done within the last minute. */
    method SucceededTask(key: Key, now: Time, o: Outcome) returns (threw: bool)
      requires key in known && key in components
      modifies this
      ensures Settled(key, threw) == Succeed(old(CellOf(key)), now, o)
      ensures forall other | other != key :: CellOf(other) == old(CellOf(other))
    {
      var component := known[key];
      if component.openIncident.None? && now - component.successWrittenAt < SUCCESS_WRITE_EVERY_MS {
        return false;
      }
      if o.Applied() {
        if component.openIncident.Some? {
          if key in incidents {
            incidents := incidents[key := EndIncident(incidents[key], component.openIncident, now)];
          }
          components := components[key := components[key].(lastSuccessAt := Some(now), openIncident := None)];
        } else {
          components := components[key := components[key].(lastSuccessAt := Some(now))];
        }
      }
      if o.Threw() {
        return true;
      }
      known := known[key := Known(None, now)];
      threw := false;
    }

    /** A failure: counted in the open incident, else in one that ended recently, else in a new one. */
    method FailedTask(key: Key, f: Failure, now: Time, o: Faults) returns (threw: bool)
      requires key in known && key in components
      modifies this
      ensures Settled(key, threw) ==
              if old(known[key].openIncident).Some? then Extend(old(CellOf(key)), f, now, o.write)
              else Open(old(CellOf(key)), f, now, o)
      ensures forall other | other != key :: CellOf(other) == old(CellOf(other))
    {
      var component, rows := known[key], if key in incidents then incidents[key] else [];
      if component.openIncident.Some? {
        if o.write.Applied() {
          if component.openIncident.value < |rows| {
            var id := component.openIncident.value;
            incidents := incidents[key := rows[id := AddFailure(rows[id], f, now)]];
          }
          components := components[key := components[key].(lastFailureAt := Some(now))];
        }
        return o.write.Threw();
      }

      if o.search.Threw() {
        return true;
      }
      var recent := LatestEnded(rows, now - REOPEN_WITHIN_MS);
      var incidentId := if recent.Some? then recent.value else |rows|;
      if o.write.Applied() {
        if recent.Some? {
          incidents := incidents[key := rows[incidentId := AddFailure(rows[incidentId], f, now).(endedAt := None)]];
        } else {
          incidents := incidents[key := rows + [NewIncident(f, now)]];
        }
      }
      if o.write.Threw() {
        return true;
      }
      if o.point.Applied() {
        components := components[key := components[key].(openIncident := Some(incidentId), lastFailureAt := Some(now))];
      }
      if o.point.Threw() {
        return true;
      }
      known := known[key := component.(openIncident := Some(incidentId))];
      threw := false;
    }

    /** One report at the head of its queue; when it threw, memory is dropped and read again next time. */
    method Serialize(key: Key, report: Report, now: Time, o: Faults)
      requires Coherent(CellOf(key))
      modifies this
      ensures CellOf(key) == Perform(old(CellOf(key)), report, now, o)
      ensures forall other | other != key :: CellOf(other) == old(CellOf(other))
    {
      var threw := LoadComponent(key, o.load);
      if !threw {
        match report
        case Success => threw := SucceededTask(key, now, o.write);
        case Failed(f) => threw := FailedTask(key, f, now, o);
      }
      if threw {
        known := known - {key};
      }
    }
  }
}
