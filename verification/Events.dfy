/**
 The agent's event publisher: an on-disk outbox around one XADD.

 An event is HANDED OVER once `Emit` has made it durable: written to the outbox
 file or accepted by Redis.  Redis may fail at any call and the process may die
 between any two effects; both are the nondeterministic choices in the bodies.
 */
module Events {

  datatype Event = Accepted | Running | Finished | Failed | Canceled | Lost

  class EventPublisher {
    // A directory of outbox files is configured.
    const durable: bool
    // Cap on outbox files; 0 means unbounded.
    const maxFiles: nat

    // Outbox files, by event id.  Ids grow, so the smallest id is the oldest file.
    var outbox: map<nat, Event>
    var nextId: nat

    // What Redis holds, what was ever handed over, and what the file cap discarded.
    ghost var stream: seq<(nat, Event)>
    ghost var handed: map<nat, Event>
    ghost var dropped: set<nat>
    // The events handed over, in order, and the id each went under.
    ghost var emitted: seq<Event>
    ghost var ids: seq<nat>
    // How often the process died or a call raised unexpectedly, and how often Redis refused.
    ghost var faults: nat
    ghost var refusals: nat

    ghost predicate Streamed(id: nat)
      reads this
    {
      id in handed && (id, handed[id]) in stream
    }

    ghost predicate Valid()
      reads this
    {
      && (forall id | id in outbox :: id in handed && outbox[id] == handed[id])
      && (forall id | id in handed :: id < nextId)
      // Nothing handed over is lost, except what the cap discarded.
      && (forall id | id in handed :: id in outbox || Streamed(id) || id in dropped)
      && (maxFiles == 0 ==> dropped == {})
      && (maxFiles > 0 ==> |outbox| <= maxFiles)
      && (!durable ==> outbox == map[])
      && |ids| == |emitted|
      && (forall k | 0 <= k < |ids| :: ids[k] in handed && handed[ids[k]] == emitted[k])
    }

    /** Every event handed over is in the stream or in the outbox, or the file cap discarded it. */
    lemma NothingIsLost(k: nat)
      requires Valid() && k < |emitted|
      ensures exists id :: id in handed && handed[id] == emitted[k] && (Streamed(id) || id in outbox || id in dropped)
      ensures maxFiles == 0 ==> exists id :: id in handed && handed[id] == emitted[k] && (Streamed(id) || id in outbox)
    {
      assert ids[k] in handed && handed[ids[k]] == emitted[k];
    }

    constructor (durable: bool, maxFiles: nat)
      ensures Valid()
      ensures this.durable == durable && this.maxFiles == maxFiles
      ensures handed == map[] && outbox == map[] && stream == [] && emitted == [] && faults == 0
    {
      this.durable := durable;
      this.maxFiles := maxFiles;
      outbox, nextId := map[], 0;
      stream, handed, dropped := [], map[], {};
      emitted, ids, faults, refusals := [], [], 0, 0;
    }

    /** Redis answers, or it does not. */
    method XAdd(ghost id: nat, ghost e: Event) returns (ok: bool)
      modifies this`stream, this`refusals
      ensures stream == if ok then old(stream) + [(id, e)] else old(stream)
      ensures refusals == old(refusals) + if ok then 0 else 1
    {
      ok := *;
      if ok {
        stream := stream + [(id, e)];
      } else {
        refusals := refusals + 1;
      }
    }

    /** The process may be gone here, or a call may raise what nobody handles. */
    method Dies() returns (b: bool)
      modifies this`faults
      ensures faults == old(faults) + if b then 1 else 0
    {
      b := *;
      if b {
        faults := faults + 1;
      }
    }

    /** Discards the oldest files until one more fits under the cap. */
    method EnforceOutboxCap()
      requires Valid() && durable
      modifies this`outbox, this`dropped
      ensures Valid()
      ensures maxFiles == 0 ==> outbox == old(outbox)
      ensures maxFiles > 0 ==> |outbox| < maxFiles
      ensures outbox.Keys <= old(outbox).Keys
      ensures forall kept, gone | kept in outbox && gone in old(outbox) && gone !in outbox :: gone < kept
    {
      if maxFiles == 0 {
        return;
      }
      while |outbox| >= maxFiles
        invariant Valid()
        invariant outbox.Keys <= old(outbox).Keys
        invariant forall id | id in outbox :: outbox[id] == old(outbox)[id]
        invariant forall kept, gone | kept in outbox && gone in old(outbox) && gone !in outbox :: gone < kept
        decreases |outbox|
      {
        ghost var files := outbox.Keys;
        assert |files| == |outbox| > 0;
        var oldest := Oldest(outbox);
        ghost var before := outbox;
        outbox := outbox - {oldest};
        assert outbox.Keys == before.Keys - {oldest};
        assert |outbox| == |outbox.Keys| && |before.Keys| == |before|;
        dropped := dropped + {oldest};
      }
    }

    method Oldest(files: map<nat, Event>) returns (id: nat)
      requires |files| > 0
      ensures id in files && forall k | k in files :: id <= k
    {
      assert |files.Keys| == |files|;
      var todo := files.Keys;
      id :| id in todo;
      todo := todo - {id};
      while todo != {}
        invariant todo <= files.Keys && id in files
        invariant forall k | k in files && k !in todo :: id <= k
        decreases todo
      {
        var k :| k in todo;
        todo := todo - {k};
        if k < id {
          id := k;
        }
      }
    }

    /** Writes the event's outbox file; atomic, but the process may die before it. */
    method Persist(id: nat, e: Event) returns (died: bool)
      requires Valid() && durable && id !in handed && id < nextId
      modifies this`outbox, this`dropped, this`handed, this`emitted, this`ids, this`faults
      ensures Valid()
      ensures handed == if died then old(handed) else old(handed)[id := e]
      ensures emitted == if died then old(emitted) else old(emitted) + [e]
      ensures faults == old(faults) + if died then 1 else 0
      ensures !died ==> id in outbox
    {
      EnforceOutboxCap();
      died := Dies();
      if !died {
        OneMore(outbox, id, e);
        outbox := outbox[id := e];
        handed := handed[id := e];
        emitted, ids := emitted + [e], ids + [id];
      }
    }

    lemma OneMore(m: map<nat, Event>, id: nat, e: Event)
      ensures |m[id := e]| <= |m| + 1
    {
      assert m[id := e].Keys == m.Keys + {id};
      assert |m[id := e]| == |m[id := e].Keys| && |m| == |m.Keys|;
    }

    /** Removes the outbox file of an event Redis has accepted. */
    method Unlink(id: nat)
      requires Valid() && Streamed(id)
      modifies this`outbox
      ensures Valid()
      ensures outbox == old(outbox) - {id}
    {
      ghost var full := outbox;
      outbox := outbox - {id};
      SubsetSize(outbox.Keys, full.Keys);
      assert |outbox| == |outbox.Keys| && |full| == |full.Keys|;
    }

    lemma SubsetSize(a: set<nat>, b: set<nat>)
      requires a <= b
      ensures |a| <= |b|
    {
      assert b == a + (b - a);
    }

    /** XADD of an event already in the outbox; on success its file goes. */
    method Publish(id: nat) returns (died: bool)
      requires Valid() && id in outbox
      modifies this`outbox, this`stream, this`faults, this`refusals
      ensures Valid() && old(stream) <= stream
      ensures outbox == old(outbox) || outbox == old(outbox) - {id}
      ensures !died && id in outbox ==> stream == old(stream) && refusals > old(refusals)
      ensures !died && id !in outbox ==> Streamed(id)
      ensures faults == old(faults) + if died then 1 else 0
      ensures refusals >= old(refusals)
    {
      var e := outbox[id];
      var ok := XAdd(id, e);
      died := Dies();
      if ok {
        assert stream[|stream|-1] == (id, e);
        if !died {
          Unlink(id);
        }
      }
    }

    /**
     Publishes one event.  `over` says it was handed over; `returned` says the
     call came back normally.  With an outbox, a failed XADD still hands over.
     */
    method Emit(e: Event) returns (over: bool, returned: bool)
      requires Valid()
      modifies this
      ensures Valid()
      ensures returned ==> over
      ensures handed == if over then old(handed)[old(nextId) := e] else old(handed)
      ensures emitted == if over then old(emitted) + [e] else old(emitted)
      ensures nextId == old(nextId) + 1 && faults >= old(faults)
      // With an outbox only a fault keeps it from returning, whatever Redis answers ...
      ensures durable && !returned ==> faults > old(faults)
      // ... which only keeps the event queued when it refuses it; else it is in the stream.
      ensures returned && refusals == old(refusals) ==> Streamed(old(nextId)) && old(nextId) !in outbox
      ensures refusals >= old(refusals)
      // ... and without one, only a refused XADD.
      ensures !durable && !returned ==> refusals > old(refusals)
    {
      var id := nextId;
      nextId := nextId + 1;
      if durable {
        var died := Persist(id, e);
        if died {
          return false, false;
        }
        died := Publish(id);
        return true, !died;
      }
      over := XAdd(id, e);
      if over {
        assert stream[|stream|-1] == (id, e);
        handed := handed[id := e];
        emitted, ids := emitted + [e], ids + [id];
      }
      returned := over;
    }

    /**
     Republishes the queued events, in any order, stopping at the first failure.
     A completed pass leaves nothing queued: with no cap, everything ever handed
     over is then in the stream.  Only a refused XADD or a fault ends a pass early.
     */
    method ReplayOutbox() returns (drained: bool)
      requires Valid()
      modifies this
      ensures Valid()
      ensures handed == old(handed) && nextId == old(nextId) && dropped == old(dropped)
      ensures emitted == old(emitted) && faults >= old(faults)
      ensures drained || faults > old(faults) || refusals > old(refusals)
      ensures drained ==> outbox == map[]
      ensures drained && maxFiles == 0 ==> forall id | id in handed :: Streamed(id)
      ensures old(stream) <= stream
    {
      while outbox != map[]
        invariant Valid()
        invariant handed == old(handed) && nextId == old(nextId) && dropped == old(dropped)
        invariant emitted == old(emitted) && ids == old(ids) && faults >= old(faults) && refusals >= old(refusals)
        invariant old(stream) <= stream
        decreases outbox.Keys
      {
        var id :| id in outbox;
        var died := Publish(id);
        if died || id in outbox {
          return false;
        }
      }
      drained := true;
    }
  }
}
