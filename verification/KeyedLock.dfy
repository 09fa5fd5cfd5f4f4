/**
 The refcounted keyed lock, used per execution id by the agent and per sha256 by
 the upload path.  Tasks interleave only at awaits, so a step is: register (get or
 create the entry and count oneself), acquire, be cancelled while waiting, leave.
 */
module KeyedLocks {
  import opened Prelude

  type Id = string
  type TaskId = nat

  /** One `[asyncio.Lock, refcount]` pair. */
  class Entry {
    const id: Id
    var locked: bool
    var refs: int

    var holder: Option<TaskId>            // where the tasks stand: inside, or waiting
    ghost var users: set<TaskId>          // the holder and the waiters
    ghost var cancelled: nat              // waiters whose acquire was cancelled

    constructor (id: Id)
      ensures this.id == id && !locked && refs == 0 && users == {} && holder == None && cancelled == 0
    {
      this.id, locked, refs := id, false, 0;
      users, holder, cancelled := {}, None, 0;
    }

    ghost predicate Valid()
      reads this
    {
      && refs == |users| + cancelled
      && locked == holder.Some?
      && (holder.Some? ==> holder.value in users)
    }

    /** `entry[1] += 1`. */
    method Count(t: TaskId)
      requires Valid() && t !in users
      modifies this`refs, this`users
      ensures Valid() && users == old(users) + {t} && refs == old(refs) + 1 && holder == old(holder)
    {
      refs := refs + 1;
      users := users + {t};
    }

    /** `lock.release(); entry[1] -= 1`. */
    method Release(t: TaskId)
      requires Valid() && holder == Some(t)
      modifies this
      ensures Valid() && users == old(users) - {t} && refs == old(refs) - 1 && holder == None
      ensures cancelled == old(cancelled)
      ensures refs == 0 ==> users == {}
    {
      locked, holder := false, None;
      refs := refs - 1;
      users := users - {t};
    }
  }

  datatype Step = Register(task: TaskId, id: Id) | Acquire(task: TaskId) | Cancel(task: TaskId) | Leave(task: TaskId)

  class KeyedLock {
    var table: map<Id, Entry>
    // The entry each registered task keeps a reference to.
    var at: map<TaskId, Entry>
    ghost var repr: set<Entry>

    ghost predicate Valid()
      reads this, repr
    {
      Linked() && forall id | id in table :: table[id].refs > 0
    }

    /** Table and tasks agree on who uses which entry. */
    ghost predicate Linked()
      reads this, repr
    {
      && (forall id | id in table :: table[id] in repr && table[id].id == id && table[id].Valid())
      // A registered task's entry is the one in the table: none is dropped while in use.
      && (forall t | t in at :: at[t].id in table && table[at[t].id] == at[t])
      && (forall id, t | id in table :: t in table[id].users <==> t in at && at[t] == table[id])
    }

    /** Task `t` is inside the critical section of `id`. */
    ghost predicate Inside(t: TaskId, id: Id)
      reads this, repr
    {
      t in at && at[t] in repr && at[t].id == id && at[t].holder == Some(t)
    }

    /** Some task holds or waits for `id`. */
    ghost predicate InUse(id: Id)
      reads this, repr
    {
      exists t :: t in at && at[t].id == id
    }

    constructor ()
      ensures Valid() && table == map[] && at == map[] && repr == {}
    {
      table, at, repr := map[], map[], {};
    }

    /** At most one task is inside per id. */
    lemma MutualExclusion(t: TaskId, u: TaskId, id: Id)
      requires Valid() && Inside(t, id) && Inside(u, id)
      ensures t == u
    {
      assert at[t] == table[id] == at[u];
    }

    /** Every id in use is in the table; with no cancelled waiter, no other id is. */
    lemma TableIsExact(id: Id)
      requires Valid()
      ensures InUse(id) ==> id in table
      ensures id in table && table[id].cancelled == 0 ==> InUse(id)
    {
      if id in table && table[id].cancelled == 0 {
        assert |table[id].users| > 0;
        var t :| t in table[id].users;
        assert at[t].id == id;
      }
    }

    method GetOrCreate(id: Id) returns (entry: Entry)
      requires Valid()
      modifies this
      ensures Linked() && fresh(repr - old(repr)) && old(repr) <= repr
      ensures table == old(table)[id := entry] && at == old(at) && table[id] in repr
      ensures id in old(table) ==> entry == old(table)[id]
      ensures id !in old(table) ==> fresh(entry)
      ensures forall i | i in table && i != id :: table[i].refs > 0
    {
      if id in table {
        entry := table[id];
      } else {
        entry := new Entry(id);
        table := table[id := entry];
        repr := repr + {entry};
      }
    }

    method Join(t: TaskId, entry: Entry)
      requires Linked() && t !in at && entry.id in table && table[entry.id] == entry
      requires forall i | i in table && i != entry.id :: table[i].refs > 0
      modifies this`at, entry`refs, entry`users
      ensures Valid() && at == old(at)[t := entry]
      ensures entry.refs == old(entry.refs) + 1
    {
      entry.Count(t);
      at := at[t := entry];
    }

    /** Get-or-create plus the count, with no await in between. */
    method Register(t: TaskId, id: Id)
      requires Valid() && t !in at
      modifies this, repr
      ensures Valid() && fresh(repr - old(repr)) && old(repr) <= repr
      ensures id in table && at == old(at)[t := table[id]] && table == old(table)[id := table[id]]
      ensures id in old(table) ==> table[id] == old(table)[id]
      ensures forall e | e in old(repr) && e != table[id] :: unchanged(e)
      ensures id in old(table) ==> table[id].holder == old(table[id].holder)
    {
      var entry := GetOrCreate(id);
      Join(t, entry);
    }

    /** The await on the entry's lock succeeds: possible only while nobody holds it. */
    method Acquire(t: TaskId)
      requires Valid() && t in at && !at[t].locked
      modifies repr
      ensures Valid() && Inside(t, at[t].id)
      ensures forall e | e in repr && e != at[t] :: e.holder == old(e.holder)
      ensures forall e | e in repr ::
        e.refs == old(e.refs) && e.users == old(e.users) && e.cancelled == old(e.cancelled)
    {
      var entry := at[t];
      entry.locked := true;
      entry.holder := Some(t);
    }

    /** A waiter's await is cancelled: its count is never given back. */
    method Cancel(t: TaskId)
      requires Valid() && t in at && at[t].holder != Some(t)
      modifies this, repr
      ensures Valid() && repr == old(repr) && table == old(table) && at == old(at) - {t}
      ensures forall e | e in repr && e != old(at)[t] :: unchanged(e)
      ensures var e := old(at)[t];
        e.cancelled == old(e.cancelled) + 1 && e.refs == old(e.refs) && e.holder == old(e.holder)
    {
      var entry := at[t];
      entry.users := entry.users - {t};
      entry.cancelled := entry.cancelled + 1;
      at := at - {t};
    }

    /** Release, give the count back, and drop the entry with the last user. */
    method Leave(t: TaskId)
      requires Valid() && t in at && at[t].holder == Some(t)
      modifies this, repr
      ensures Valid() && repr == old(repr) && at == old(at) - {t}
      ensures forall e | e in repr && e != old(at)[t] :: unchanged(e)
      ensures old(at)[t].holder == None && old(at)[t].users == old(at[t].users) - {t}
      ensures table == if old(at[t].refs) == 1 then old(table) - {old(at[t].id)} else old(table)
      // A cancelled waiter leaks the entry: no later leave removes it.
      ensures old(at[t].cancelled) > 0 ==> table == old(table)
    {
      var entry := at[t];
      entry.Release(t);
      at := at - {t};
      if entry.refs == 0 && entry.id in table && table[entry.id] == entry {
        table := table - {entry.id};
      }
    }

    /** Any interleaving of the steps of any tasks over any ids; disabled steps wait. */
    method Interleave(steps: seq<Step>)
      requires Valid()
      modifies this, repr
      ensures Valid()
    {
      for i := 0 to |steps|
        invariant Valid() && fresh(repr - old(repr)) && old(repr) <= repr
      {
        match steps[i] {
          case Register(t, id) =>
            if t !in at {
              Register(t, id);
            }
          case Acquire(t) =>
            if t in at && !at[t].locked {
              Acquire(t);
            }
          case Cancel(t) =>
            if t in at && at[t].holder != Some(t) {
              Cancel(t);
            }
          case Leave(t) =>
            if t in at && at[t].holder == Some(t) {
              Leave(t);
            }
        }
      }
    }
  }
}
