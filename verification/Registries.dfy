/** The registry of named objects, and the threads that wait for a name to appear. */
module Registries {
  import Maps = HashedMaps
  import opened Words
  import opened RunQueues
  import opened Schedulers

  type Name = string

  datatype Entry = Entry(process: nat, object: nat)

  datatype Result = NoError | NotAdded | NameExists | NotInRegistry

  /** The threads that wait for one name. */
  class WaitQueue {
    var threads: seq<Thread>

    constructor ()
      ensures threads == []
    {
      threads := [];
    }
  }

  /** The queues with one more thread under a name. */
  function Joining(waiting: map<Name, seq<Thread>>, name: Name, t: Thread): map<Name, seq<Thread>> {
    waiting[name := (if name in waiting then waiting[name] else []) + [t]]
  }

  /** The thread is behind those that were there, and the queues of other names are as they were. */
  lemma JoiningLast(waiting: map<Name, seq<Thread>>, name: Name, t: Thread)
    ensures var r := Joining(waiting, name, t);
            && name in r && |r[name]| > 0 && r[name][|r[name]| - 1] == t
            && r[name][..|r[name]| - 1] == (if name in waiting then waiting[name] else [])
            && r - {name} == waiting - {name}
  {
    var r := Joining(waiting, name, t);
    assert r - {name} == waiting - {name};
  }

  /**
    A name with waiters is not registered, and every thread that waits for a name is in its queue: no wake-up is lost.
   */
  ghost predicate Sound(registered: set<Name>, waiting: map<Name, seq<Thread>>, asked: map<Thread, Name>,
                        threads: set<Thread>) {
    && (forall name :: name in waiting ==> name !in registered)
    && (forall name, t :: name in waiting && t in waiting[name] ==> t in threads)
    && (forall t :: t in asked ==> asked[t] in waiting && t in waiting[asked[t]])
  }

  lemma SoundMembers(registered: set<Name>, waiting: map<Name, seq<Thread>>, asked: map<Thread, Name>,
                     threads: set<Thread>)
    requires Sound(registered, waiting, asked, threads)
    ensures forall name, t :: name in waiting && t in waiting[name] ==> t in threads
  {
  }

  lemma SoundAsked(registered: set<Name>, waiting: map<Name, seq<Thread>>, asked: map<Thread, Name>,
                   threads: set<Thread>)
    requires Sound(registered, waiting, asked, threads)
    ensures forall t :: t in asked ==> t in threads
  {
  }

  lemma SoundMore(registered: set<Name>, waiting: map<Name, seq<Thread>>, asked: map<Thread, Name>,
                  threads: set<Thread>, more: set<Thread>)
    requires Sound(registered, waiting, asked, threads) && threads <= more
    ensures Sound(registered, waiting, asked, more)
  {
  }

  lemma JoiningOwn(waiting: map<Name, seq<Thread>>, asked: map<Thread, Name>, name: Name, t: Thread)
    requires Own(waiting, asked) && t !in asked
    ensures Own(Joining(waiting, name, t), asked[t := name]) && asked - {t} == asked
  {
  }

  /** The threads that wait for a name are those of its queue. */
  lemma AnsweredOwn(registered: set<Name>, waiting: map<Name, seq<Thread>>, asked: map<Thread, Name>,
                    threads: set<Thread>, name: Name)
    requires Sound(registered, waiting, asked, threads) && Own(waiting, asked)
    ensures Own(waiting - {name}, Answered(asked, name))
    ensures forall t :: t in asked ==> t in threads
    ensures forall t :: t in asked && asked[t] == name <==> name in waiting && t in waiting[name]
  {
  }

  lemma JoiningSound(registered: set<Name>, waiting: map<Name, seq<Thread>>, asked: map<Thread, Name>,
                     threads: set<Thread>,
                     name: Name, t: Thread)
    requires Sound(registered, waiting, asked, threads) && name !in registered && t in threads
    ensures Sound(registered, Joining(waiting, name, t), asked[t := name], threads)
  {
  }

  lemma RefusedSound(registered: set<Name>, waiting: map<Name, seq<Thread>>, asked: map<Thread, Name>,
                     threads: set<Thread>, t: Thread)
    requires Sound(registered, waiting, asked, threads)
    ensures Sound(registered, waiting, asked - {t}, threads)
  {
  }

  /** The names threads wait for, without one that has appeared. */
  ghost function Answered(asked: map<Thread, Name>, name: Name): map<Thread, Name> {
    map t | t in asked && asked[t] != name :: asked[t]
  }

  /** Threads go on waiting for a name, unless the call registers it. */
  ghost predicate GoOn(asked: map<Thread, Name>, asked': map<Thread, Name>, act: Act) {
    forall t :: t in asked && !(act.AddName? && act.name == asked[t]) ==> t in asked' && asked'[t] == asked[t]
  }

  lemma StillAsked(asked: map<Thread, Name>, t: Thread, name: Name, act: Act)
    ensures GoOn(asked, asked, act)
    ensures t !in asked ==> GoOn(asked, asked[t := name], act)
    ensures act.AddName? && act.name == name ==> GoOn(asked, Answered(asked, name), act)
  {
  }

  lemma AnsweredSound(registered: set<Name>, waiting: map<Name, seq<Thread>>, asked: map<Thread, Name>,
                      threads: set<Thread>, name: Name)
    requires Sound(registered, waiting, asked, threads)
    ensures Sound(registered + {name}, waiting - {name}, Answered(asked, name), threads)
  {
  }

  lemma WithdrawnSound(registered: set<Name>, waiting: map<Name, seq<Thread>>, asked: map<Thread, Name>,
                       threads: set<Thread>, name: Name)
    requires Sound(registered, waiting, asked, threads)
    ensures Sound(registered - {name}, waiting, asked, threads)
  {
  }

  /** A queued thread waits for the name of its queue and no other. */
  ghost predicate Own(waiting: map<Name, seq<Thread>>, asked: map<Thread, Name>) {
    forall name, t :: name in waiting && t in waiting[name] ==> t in asked && asked[t] == name
  }

  /** The kernel calls that concern the registry. */
  datatype Act =
    | NewThread(priority: nat)
    | OpenName(thread: nat, name: Name)
    | AddName(name: Name, entry: Entry)
    | RemoveName(name: Name)
    | Reschedule

  ghost predicate NeverAdded(acts: seq<Act>, name: Name) {
    forall act :: act in acts && act.AddName? ==> act.name != name
  }

  lemma NotThis(acts: seq<Act>, i: int)
    requires 0 <= i < |acts|
    ensures acts[i].AddName? ==> !NeverAdded(acts, acts[i].name)
  {
    assert acts[i] in acts;
  }

  class Registry {
    const scheduler: Scheduler
    const entries: Maps.HashedMap<Name, Entry>
    const queues: Maps.HashedMap<Name, WaitQueue>
    /** The name each thread waits for. */
    ghost var asked: map<Thread, Name>
    /** The threads that wait and are in no queue, since a queue was refused. */
    ghost var lost: set<Thread>

    ghost function Objects(): set<WaitQueue>
      reads queues
    {
      queues.contents.Values
    }

    /** The threads queued under each name. */
    ghost function Queued(): map<Name, seq<Thread>>
      reads queues, Objects()
    {
      map name | name in queues.contents :: queues.contents[name].threads
    }

    /** Both maps are in order, and each name has a queue of its own. */
    ghost predicate MapsOk()
      reads entries, entries.buckets, queues, queues.buckets
    {
      && entries.Valid() && entries.size == |entries.contents|
      && queues.Valid() && queues.size == |queues.contents|
      && (entries as object) != queues && (entries.buckets as object) != queues.buckets
      && (forall n, m :: n in queues.contents && m in queues.contents && queues.contents[n] == queues.contents[m] ==>
           n == m)
    }

    ghost predicate Valid()
      reads this, scheduler, scheduler.queues, scheduler.threads`priority, scheduler.threads`originalPriority
      reads entries, entries.buckets, queues, queues.buckets, Objects()
    {
      scheduler.Valid() && MapsOk() && Sound(entries.contents.Keys, Queued(), asked, scheduler.threads)
    }

    constructor (scheduler: Scheduler, hash: Name -> Word)
      requires scheduler.Valid()
      ensures Valid() && this.scheduler == scheduler && asked == map[] && lost == {}
      ensures entries.contents == map[] && queues.contents == map[]
      ensures (forall t :: t in scheduler.threads ==> t.state != Waiting) ==> Tidy()
      ensures fresh(entries) && fresh(entries.buckets) && fresh(queues) && fresh(queues.buckets)
    {
      this.scheduler := scheduler;
      entries := new Maps.HashedMap(hash);
      queues := new Maps.HashedMap(hash);
      asked, lost := map[], {};
    }

    /** Looks a name up. */
    method Get(name: Name) returns (result: Result, entry: Entry)
      requires MapsOk()
      ensures result == if name in entries.contents then NoError else NotInRegistry
      ensures name in entries.contents ==> entry == entries.contents[name]
    {
      result, entry := NotInRegistry, Entry(0, 0);
      var known := entries.ContainsKey(name);
      if known {
        var found := entries.Get(name);
        result, entry := NoError, found.value;
      }
    }

    /** The map of queues refuses a queue for the name. */
    ghost predicate Refuses(name: Name)
      requires MapsOk()
      reads entries, entries.buckets, queues, queues.buckets
    {
      name !in queues.contents && (queues.size == Maps.CAPACITY || queues.Crowded(name))
    }

    /** That is so exactly if the map is full, or has 32 names of the same bucket. */
    lemma RefusesWhen(name: Name)
      requires MapsOk()
      ensures Refuses(name) <==>
              && name !in queues.contents
              && (|queues.contents| == Maps.CAPACITY
                  || |Maps.KeysIn(queues.contents, queues.hash, Maps.IndexOf(queues.hash(name)))| == Maps.BUCKET_SIZE)
    {
      hide Maps.HashedMap.Valid;
      hide Maps.HashedMap.Crowded;
      queues.CrowdedIs(name);
    }

    /** The map of entries refuses another name. */
    ghost predicate Full(name: Name)
      requires MapsOk()
      reads entries, entries.buckets, queues, queues.buckets
    {
      entries.size == Maps.CAPACITY || entries.Crowded(name)
    }

    lemma SizeBound()
      requires MapsOk()
      ensures queues.size <= Maps.CAPACITY && entries.size <= Maps.CAPACITY
    {
    }

    /** The queue of a name, which is made if there is none; one that the map refuses is nobody's. */
    method QueueFor(name: Name) returns (queue: WaitQueue)
      requires MapsOk()
      modifies queues, queues.buckets
      ensures MapsOk()
      ensures name in queues.contents <==> !old(Refuses(name))
      ensures if name in queues.contents then queue == queues.contents[name] else queue !in Objects()
      ensures fresh(queue) || queue in old(Objects())
      ensures Queued() == if name in queues.contents && name !in old(queues.contents) then old(Queued())[name := []]
              else old(Queued())
      ensures fresh(Objects() - old(Objects()))
    {
      SizeBound();
      hide Maps.HashedMap.Valid;
      hide Maps.HashedMap.Crowded;
      var known := queues.ContainsKey(name);
      if !known {
        queue := new WaitQueue();
        assert queue !in Objects();
        var put := queues.Put(name, queue);
        assert Queued() == if put then old(Queued())[name := []] else old(Queued());
      } else {
        var found := queues.Get(name);
        queue := found.value;
      }
    }

    method Push(queue: WaitQueue, t: Thread, ghost name: Name)
      requires MapsOk() && if name in queues.contents then queue == queues.contents[name] else queue !in Objects()
      modifies queue
      ensures MapsOk()
      ensures Queued() == if name in queues.contents then Joining(old(Queued()), name, t) else old(Queued())
    {
      hide Maps.HashedMap.Valid;
      queue.threads := queue.threads + [t];
    }

    /** Puts a thread into the queue of a name, or into one that nobody knows. */
    method Enlist(t: Thread, name: Name)
      requires MapsOk()
      modifies queues, queues.buckets, Objects()
      ensures MapsOk() && fresh(Objects() - old(Objects()))
      ensures Queued() == if old(Refuses(name)) then old(Queued()) else Joining(old(Queued()), name, t)
    {
      hide MapsOk;
      hide Refuses;
      hide Queued;
      KnownNames();
      var queue := QueueFor(name);
      Push(queue, t, name);
    }

    /** Blocks a thread, and puts it into the queue of a name, or into one that nobody knows. */
    method Park(t: Thread, name: Name)
      requires scheduler.Valid() && MapsOk() && t in scheduler.threads
      modifies queues, queues.buckets, Objects(), t`state, t`waitingOn, scheduler.queues
      modifies scheduler`stack, scheduler`currQueue, scheduler`currPriority, scheduler`evalNew
      ensures scheduler.Valid() && MapsOk() && fresh(Objects() - old(Objects()))
      ensures if CanWait(old(t.state))
              then t.state == Waiting && t.waitingOn == 0 && forall p :: !scheduler.In(t, p)
              else t.state == old(t.state) && t.waitingOn == old(t.waitingOn)
      ensures Queued() == if old(Refuses(name)) then old(Queued()) else Joining(old(Queued()), name, t)
      ensures old(scheduler.Settled()) ==> scheduler.Settled()
      ensures old(scheduler.OneRunning()) ==> scheduler.OneRunning()
    {
      hide Scheduler.Valid;
      hide Scheduler.Settled;
      hide Scheduler.OneRunning;
      hide FocusExit;
      hide MapsOk;
      hide Refuses;
      hide Queued;
      hide Joining;
      ghost var refused := Refuses(name);
      scheduler.SetWaiting(t, 0);
      assert MapsOk() && Queued() == old(Queued()) && Refuses(name) == refused;
      ghost var settled, one := scheduler.Settled(), scheduler.OneRunning();
      Enlist(t, name);
      assert scheduler.Valid() && scheduler.Settled() == settled && scheduler.OneRunning() == one;
    }

    /**
      Blocks a thread until a name that is not registered appears.  When the map of queues refuses a new one, the
      thread is blocked all the same, but put into a queue nobody knows.
     */
    method WaitFor(t: Thread, name: Name)
      requires Valid() && t in scheduler.threads && name !in entries.contents
      modifies this, queues, queues.buckets, Objects(), t`state, t`waitingOn, scheduler.queues
      modifies scheduler`stack, scheduler`currQueue, scheduler`currPriority, scheduler`evalNew
      ensures Valid() && fresh(Objects() - old(Objects()))
      ensures if CanWait(old(t.state))
              then t.state == Waiting && t.waitingOn == 0 && forall p :: !scheduler.In(t, p)
              else t.state == old(t.state) && t.waitingOn == old(t.waitingOn)
      ensures if old(Refuses(name))
              then Queued() == old(Queued()) && asked == old(asked) - {t} && lost == old(lost) + {t}
              else && Queued() == Joining(old(Queued()), name, t)
                   && asked == old(asked)[t := name] && lost == old(lost) - {t}
      ensures old(scheduler.Settled()) ==> scheduler.Settled()
      ensures old(scheduler.OneRunning()) ==> scheduler.OneRunning()
    {
      hide Scheduler.Valid;
      hide Scheduler.Settled;
      hide Scheduler.OneRunning;
      hide FocusExit;
      hide MapsOk;
      hide Refuses;
      hide Queued;
      hide Sound;
      hide Joining;
      ghost var refused := Refuses(name);
      JoiningSound(entries.contents.Keys, Queued(), asked, scheduler.threads, name, t);
      RefusedSound(entries.contents.Keys, Queued(), asked, scheduler.threads, t);
      Park(t, name);
      asked := if refused then asked - {t} else asked[t := name];
      lost := if refused then lost + {t} else lost - {t};
    }

    /** Opens a name: a thread that does not find it waits for it.  Finding and waiting are one step. */
    method Open(t: Thread, name: Name) returns (found: bool, entry: Entry)
      requires Valid() && t in scheduler.threads
      modifies this, queues, queues.buckets, Objects(), t`state, t`waitingOn, scheduler.queues
      modifies scheduler`stack, scheduler`currQueue, scheduler`currPriority, scheduler`evalNew
      ensures Valid() && fresh(Objects() - old(Objects()))
      ensures found <==> name in entries.contents
      ensures found ==>
                && entry == entries.contents[name] && t.state == old(t.state)
                && unchanged(this) && Queued() == old(Queued())
      ensures !found ==>
                if CanWait(old(t.state))
                then t.state == Waiting && t.waitingOn == 0 && forall p :: !scheduler.In(t, p)
                else t.state == old(t.state) && t.waitingOn == old(t.waitingOn)
      ensures !found ==>
                if old(Refuses(name))
                    then Queued() == old(Queued()) && asked == old(asked) - {t} && lost == old(lost) + {t}
                else && Queued() == Joining(old(Queued()), name, t)
                     && asked == old(asked)[t := name] && lost == old(lost) - {t}
      ensures old(scheduler.Settled()) ==> scheduler.Settled()
      ensures old(scheduler.OneRunning()) ==> scheduler.OneRunning()
    {
      hide Scheduler.Valid;
      hide MapsOk;
      hide Refuses;
      hide Queued;
      hide Sound;
      var result;
      result, entry := Get(name);
      found := result == NoError;
      if !found {
        WaitFor(t, name);
      }
    }

    /** Takes the first thread off a queue, and makes it ready if it is still waiting. */
    method WakeFirst(queue: WaitQueue, t: Thread, ghost was: seq<seq<Thread>>, ghost all: seq<Thread>, ghost n: nat)
      requires scheduler.Valid() && |queue.threads| > 0 && t == queue.threads[0] && t in scheduler.threads
      requires Served(was, scheduler.queues[..], all, n) && n < |all| && all[n] == t
      requires t.state == Waiting ==> t !in all[..n]
      modifies queue, scheduler.queues, t`state, t`waitingOn
      modifies scheduler`stack, scheduler`currQueue, scheduler`currPriority, scheduler`evalNew, scheduler`threads
      ensures scheduler.Valid() && scheduler.threads == old(scheduler.threads)
      ensures queue.threads == old(queue.threads)[1..] && Woken(scheduler, t)
      ensures Served(was, scheduler.queues[..], all, n + 1)
      ensures forall x, p :: x in scheduler.threads && old(scheduler.In(x, p)) ==> scheduler.In(x, p)
      ensures old(scheduler.Settled()) ==> scheduler.Settled()
      ensures old(scheduler.OneRunning()) ==> scheduler.OneRunning()
    {
      hide Scheduler.Valid;
      hide Scheduler.Settled;
      hide Scheduler.OneRunning;
      hide Scheduler.In;
      hide FocusNew;
      hide Served;
      hide Joined;
      hide BusyOf;
      scheduler.SetReady(t);
      if old(t.state) == Waiting {
        ServedNext(was, old(scheduler.queues[..]), all, n, t, t.priority);
      } else {
        ServedSame(was, old(scheduler.queues[..]), all, n);
      }
      queue.threads := queue.threads[1..];
    }

    /** Makes every thread of a queue ready that is still waiting, and empties the queue. */
    method Drain(queue: WaitQueue)
      requires scheduler.Valid() && forall t :: t in queue.threads ==> t in scheduler.threads
      modifies queue, scheduler.queues, queue.threads`state, queue.threads`waitingOn
      modifies scheduler`stack, scheduler`currQueue, scheduler`currPriority, scheduler`evalNew, scheduler`threads
      ensures scheduler.Valid() && scheduler.threads == old(scheduler.threads) && queue.threads == []
      ensures forall t :: t in old(queue.threads) ==> Woken(scheduler, t)
      ensures Served(old(scheduler.queues[..]), scheduler.queues[..], old(queue.threads), |old(queue.threads)|)
      ensures old(scheduler.Settled()) ==> scheduler.Settled()
      ensures old(scheduler.OneRunning()) ==> scheduler.OneRunning()
    {
      hide Scheduler.Valid;
      hide Scheduler.Settled;
      hide Scheduler.OneRunning;
      hide FocusNew;
      hide Served;
      hide Scheduler.In;
      hide BusyOf;
      hide Joined;
      ghost var was := scheduler.queues[..];
      var all := queue.threads;
      ServedNone(was, all);
      ghost var i := 0;
      while |queue.threads| > 0
        invariant 0 <= i <= |all| && queue.threads == all[i..]
        invariant scheduler.Valid() && scheduler.threads == old(scheduler.threads)
        invariant Served(was, scheduler.queues[..], all, i)
        invariant forall t :: t in all[..i] ==> Woken(scheduler, t)
        invariant forall t :: t in all[i..] ==> t in all[..i] || Untouched(t)
        invariant old(scheduler.Settled()) ==> scheduler.Settled()
        invariant old(scheduler.OneRunning()) ==> scheduler.OneRunning()
        decreases |queue.threads|
      {
        assert all[..i + 1] == all[..i] + [all[i]] && all[i..] == [all[i]] + all[i + 1..];
        ghost var t := all[i];
        assert t in all[..i] || Untouched(t);
        WakeFirst(queue, queue.threads[0], was, all, i);
        assert Woken(scheduler, t);
        assert forall x :: x in all[..i] ==> Woken(scheduler, x);
        i := i + 1;
      }
      assert all[..i] == all;
    }

    /** Makes every thread ready that still waits for a name, and drops the queue of the name. */
    method WakeAll(name: Name)
      requires MapsOk() && scheduler.Valid() && (name in Queued() ==> forall t :: t in Queued()[name] ==>
                 t in scheduler.threads)
      modifies queues, queues.buckets, Objects(), scheduler.queues, scheduler.threads`state, scheduler.threads`waitingOn
      modifies scheduler`stack, scheduler`currQueue, scheduler`currPriority, scheduler`evalNew, scheduler`threads
      ensures MapsOk() && scheduler.Valid() && scheduler.threads == old(scheduler.threads)
      ensures Queued() == old(Queued()) - {name} && Objects() <= old(Objects())
      ensures forall t :: t in scheduler.threads ==>
                if name in old(Queued()) && t in old(Queued())[name] then Woken(scheduler, t) else Untouched(t)
      ensures name in old(Queued()) ==>
                Served(old(scheduler.queues[..]), scheduler.queues[..], old(Queued())[name], |old(Queued())[name]|)
      ensures old(scheduler.Settled()) ==> scheduler.Settled()
      ensures old(scheduler.OneRunning()) ==> scheduler.OneRunning()
    {
      hide Served;
      hide Scheduler.Valid;
      hide Scheduler.Settled;
      hide Scheduler.OneRunning;
      hide Scheduler.In;
      hide MapsOk;
      hide Queued;
      KnownNames();
      var known := HasQueue(name);
      if known {
        DrainOf(name);
        DropQueue(name);
      }
      assert !known ==> old(Queued()) - {name} == old(Queued());
    }

    method HasQueue(name: Name) returns (known: bool)
      requires MapsOk()
      ensures known <==> name in queues.contents
    {
      known := queues.ContainsKey(name);
    }

    /** Makes every thread ready that still waits for a name. */
    method DrainOf(name: Name)
      requires MapsOk() && scheduler.Valid() && name in Queued() && forall t :: t in Queued()[name] ==>
                 t in scheduler.threads
      modifies Objects(), scheduler.queues, scheduler.threads`state, scheduler.threads`waitingOn
      modifies scheduler`stack, scheduler`currQueue, scheduler`currPriority, scheduler`evalNew, scheduler`threads
      ensures MapsOk() && scheduler.Valid() && scheduler.threads == old(scheduler.threads)
      ensures Queued() == old(Queued())[name := []]
      ensures forall t :: t in old(Queued())[name] ==> Woken(scheduler, t)
      ensures forall t :: t in scheduler.threads && t !in old(Queued())[name] ==> Untouched(t)
      ensures Served(old(scheduler.queues[..]), scheduler.queues[..], old(Queued())[name], |old(Queued())[name]|)
      ensures old(scheduler.Settled()) ==> scheduler.Settled()
      ensures old(scheduler.OneRunning()) ==> scheduler.OneRunning()
    {
      hide Served;
      hide Scheduler.Valid;
      hide Scheduler.Settled;
      hide Scheduler.OneRunning;
      hide Scheduler.In;
      hide Maps.HashedMap.Valid;
      hide MapsOk;
      QueuesApart();
      var found := queues.Get(name);
      Drain(found.value);
    }

    lemma QueuesApart()
      requires MapsOk()
      ensures queues.Valid()
      ensures forall n, m :: n in queues.contents && m in queues.contents && n != m ==>
                queues.contents[n] != queues.contents[m]
    {
    }

    method DropQueue(name: Name)
      requires MapsOk()
      modifies queues, queues.buckets
      ensures MapsOk() && Queued() == old(Queued()) - {name} && Objects() <= old(Objects())
    {
      hide Maps.HashedMap.Valid;
      var removed := queues.Remove(name);
    }

    /** Stores an entry under a name that has none. */
    method Register(name: Name, entry: Entry) returns (result: Result)
      requires MapsOk()
      modifies entries, entries.buckets
      ensures MapsOk() && Queued() == old(Queued())
      ensures result == if name in old(entries.contents) then NameExists
                        else if old(Full(name)) then NotAdded else NoError
      ensures entries.contents == if result == NoError then old(entries.contents)[name := entry]
              else old(entries.contents)
      ensures result == NotAdded ==> Full(name)
    {
      SizeBound();
      hide Maps.HashedMap.Valid;
      var known := entries.ContainsKey(name);
      if known {
        return NameExists;
      }
      var added := entries.Put(name, entry);
      result := if added then NoError else NotAdded;
      assert Queued() == old(Queued());
    }

    /** Registers a name and wakes every thread that waits for it. */
    method Add(name: Name, entry: Entry) returns (result: Result)
      requires Valid()
      modifies this, entries, entries.buckets, queues, queues.buckets, Objects()
      modifies scheduler.queues, scheduler.threads`state, scheduler.threads`waitingOn
      modifies scheduler`stack, scheduler`currQueue, scheduler`currPriority, scheduler`evalNew, scheduler`threads
      ensures Valid() && scheduler.threads == old(scheduler.threads) && lost == old(lost) && Objects() <= old(Objects())
      ensures result == if name in old(entries.contents) then NameExists
                        else if old(Full(name)) then NotAdded else NoError
      ensures entries.contents == if result == NoError then old(entries.contents)[name := entry]
              else old(entries.contents)
      ensures result == NotAdded ==> Full(name)
      ensures Queued() == if result == NoError then old(Queued()) - {name} else old(Queued())
      ensures asked == if result == NoError then Answered(old(asked), name) else old(asked)
      ensures forall t :: t in scheduler.threads ==>
                if result == NoError && name in old(Queued()) && t in old(Queued())[name] then Woken(scheduler, t)
                    else Untouched(t)
      ensures result == NoError && name in old(Queued()) ==>
                Served(old(scheduler.queues[..]), scheduler.queues[..], old(Queued())[name], |old(Queued())[name]|)
      ensures old(scheduler.Settled()) ==> scheduler.Settled()
      ensures old(scheduler.OneRunning()) ==> scheduler.OneRunning()
    {
      hide Served;
      hide Scheduler.Valid;
      hide Scheduler.Settled;
      hide Scheduler.OneRunning;
      hide Scheduler.In;
      hide MapsOk;
      hide Full;
      hide Queued;
      hide Sound;
      hide Answered;
      hide Joining;
      hide Refuses;
      SoundMembers(entries.contents.Keys, Queued(), asked, scheduler.threads);
      AnsweredSound(entries.contents.Keys, Queued(), asked, scheduler.threads, name);
      result := Register(name, entry);
      if result == NoError {
        assert scheduler.Valid();
        WakeAll(name);
        asked := Answered(asked, name);
        assert entries.contents.Keys == old(entries.contents.Keys) + {name};
      }
    }

    /** Takes a name out of the registry. */
    method Remove(name: Name) returns (result: Result)
      requires Valid()
      modifies entries, entries.buckets
      ensures Valid() && Queued() == old(Queued())
      ensures result == if name in old(entries.contents) then NoError else NotInRegistry
      ensures entries.contents == old(entries.contents) - {name}
    {
      hide Scheduler.Valid;
      hide MapsOk;
      hide Queued;
      hide Sound;
      WithdrawnSound(entries.contents.Keys, Queued(), asked, scheduler.threads, name);
      result := Withdraw(name);
      assert entries.contents.Keys == old(entries.contents.Keys) - {name};
    }

    method Withdraw(name: Name) returns (result: Result)
      requires MapsOk()
      modifies entries, entries.buckets
      ensures MapsOk() && Queued() == old(Queued())
      ensures result == if name in old(entries.contents) then NoError else NotInRegistry
      ensures entries.contents == old(entries.contents) - {name}
    {
      hide Maps.HashedMap.Valid;
      var known := entries.ContainsKey(name);
      result := if known then NoError else NotInRegistry;
      if known {
        var removed := entries.Remove(name);
      }
      assert Queued() == old(Queued());
    }

    // ---------------------------------------------------------------- runs

    /**
      Every waiting thread waits for a name, whose queue it is in, or was lost, and only those are in the queues.  With
      `Valid()`: unless it was lost, a thread waits only for a name that is not registered, and will be woken.
     */
    ghost predicate Tidy()
      reads this, scheduler`threads, scheduler.threads`state, queues, Objects()
    {
      && (forall t :: t in scheduler.threads ==> (t.state == Waiting <==> t in asked || t in lost))
      && Own(Queued(), asked)
      && (forall t :: t in lost ==> t in scheduler.threads && t !in asked)
    }

    /** A thread that can run opens a name. */
    method OpenTidy(t: Thread, name: Name)
      requires Valid() && Tidy() && scheduler.OneRunning() && t in scheduler.threads && Runnable(t.state)
      modifies this, queues, queues.buckets, Objects(), t`state, t`waitingOn, scheduler.queues
      modifies scheduler`stack, scheduler`currQueue, scheduler`currPriority, scheduler`evalNew
      ensures Valid() && Tidy() && scheduler.OneRunning() && fresh(Objects() - old(Objects()))
      ensures t !in old(asked) && t !in old(lost) && scheduler.threads == old(scheduler.threads)
      ensures asked == if name in entries.contents || old(Refuses(name)) then old(asked) else old(asked)[t := name]
      ensures lost == if name !in entries.contents && old(Refuses(name)) then old(lost) + {t} else old(lost)
    {
      hide Scheduler.Valid;
      hide Scheduler.OneRunning;
      hide Scheduler.Settled;
      hide Scheduler.In;
      hide MapsOk;
      hide Refuses;
      hide Queued;
      hide Sound;
      hide Own;
      JoiningOwn(Queued(), asked, name, t);
      var found, entry := Open(t, name);
    }

    /** A name is registered. */
    method AddTidy(name: Name, entry: Entry) returns (result: Result)
      requires Valid() && Tidy() && scheduler.OneRunning()
      modifies this, entries, entries.buckets, queues, queues.buckets, Objects()
      modifies scheduler.queues, scheduler.threads`state, scheduler.threads`waitingOn
      modifies scheduler`stack, scheduler`currQueue, scheduler`currPriority, scheduler`evalNew, scheduler`threads
      ensures Valid() && Tidy() && scheduler.OneRunning() && fresh(Objects() - old(Objects()))
      ensures lost == old(lost) && scheduler.threads == old(scheduler.threads)
      ensures asked == if result == NoError then Answered(old(asked), name) else old(asked)
      ensures result == if name in old(entries.contents) then NameExists
                        else if old(Full(name)) then NotAdded else NoError
      ensures result == NotAdded ==> Full(name) && name !in entries.contents
      ensures result == NoError ==>
                forall t :: t in old(asked) && old(asked)[t] == name ==>
                  t in scheduler.threads && t.state == Ready && t.waitingOn == 0 && scheduler.In(t, t.priority)
    {
      hide Scheduler.Valid;
      hide Scheduler.OneRunning;
      hide Scheduler.Settled;
      hide Scheduler.In;
      hide MapsOk;
      hide Full;
      hide Queued;
      AnsweredOwn(entries.contents.Keys, Queued(), asked, scheduler.threads, name);
      hide Sound;
      hide Own;
      result := Add(name, entry);
    }

    /** A thread is created. */
    method Spawn(priority: nat) returns (t: Thread)
      requires Valid() && Tidy() && scheduler.OneRunning() && priority < PRIORITIES
      modifies scheduler, scheduler.queues
      ensures Valid() && Tidy() && scheduler.OneRunning() && fresh(t)
      ensures scheduler.threads == old(scheduler.threads) + {t} && fresh(Objects() - old(Objects()))
      ensures asked == old(asked) && lost == old(lost)
    {
      hide Scheduler.Valid;
      hide Scheduler.OneRunning;
      hide Scheduler.Settled;
      hide FocusNew;
      hide MapsOk;
      SoundAsked(entries.contents.Keys, Queued(), asked, scheduler.threads);
      t := scheduler.Create(priority);
      assert Queued() == old(Queued());
      SoundMore(entries.contents.Keys, Queued(), asked, old(scheduler.threads), scheduler.threads);
      hide Sound;
    }

    /** The scheduler chooses a thread. */
    method Switch()
      requires Valid() && Tidy() && scheduler.OneRunning()
      modifies scheduler`currThread, scheduler`evalNew, scheduler.queues, scheduler.threads`state
      ensures Valid() && Tidy() && scheduler.OneRunning() && fresh(Objects() - old(Objects()))
      ensures asked == old(asked) && lost == old(lost) && scheduler.threads == old(scheduler.threads)
    {
      hide Scheduler.OneRunning;
      hide Scheduler.Settled;
      hide Scheduler.Oriented;
      hide Scheduler.Valid;
      hide Scheduler.In;
      hide EndsSwapped;
      hide MapsOk;
      hide Sound;
      hide Own;
      var current := scheduler.currThread;
      var next := scheduler.Dispatch(if current == null then NotCreated else current.state);
      assert Queued() == old(Queued());
    }

    /** A name is withdrawn. */
    method RemoveTidy(name: Name)
      requires Valid() && Tidy() && scheduler.OneRunning()
      modifies entries, entries.buckets
      ensures Valid() && Tidy() && scheduler.OneRunning() && fresh(Objects() - old(Objects()))
      ensures asked == old(asked) && lost == old(lost) && scheduler.threads == old(scheduler.threads)
    {
      hide Valid;
      hide Queued;
      hide Own;
      hide Scheduler.OneRunning;
      var result := Remove(name);
    }

    lemma ValidMaps()
      requires Valid()
      ensures MapsOk()
    {
    }

    /** One kernel call.  Threads go by their number in `pool`; only a thread that can run makes a call. */
    method Step(act: Act, pool: seq<Thread>) returns (pool': seq<Thread>)
      requires Valid() && Tidy() && scheduler.OneRunning() && forall t :: t in pool ==> t in scheduler.threads
      modifies this, entries, entries.buckets, queues, queues.buckets, Objects(), scheduler, scheduler.queues,
               scheduler.threads
      ensures Valid() && Tidy() && scheduler.OneRunning() && pool <= pool' && forall t :: t in pool' ==>
                t in scheduler.threads
      ensures fresh(Objects() - old(Objects())) && fresh(scheduler.threads - old(scheduler.threads))
      ensures old(scheduler.threads) <= scheduler.threads
      ensures GoOn(old(asked), asked, act)
      ensures lost == old(lost) || (act.OpenName? && old(Refuses(act.name)) && act.thread < |pool|
              && lost == old(lost) + {pool[act.thread]})
    {
      hide Valid;
      hide Tidy;
      hide Scheduler.OneRunning;
      hide Refuses;
      hide Queued;
      hide Answered;
      hide GoOn;
      hide Objects;
      ValidMaps();
      StillAsked(asked, scheduler.idle, "", act);
      pool' := pool;
      match act
      case NewThread(priority) =>
        if priority < PRIORITIES {
          var t := Spawn(priority);
          pool' := pool + [t];
        }
      case OpenName(i, name) =>
        if i < |pool| && Runnable(pool[i].state) {
          StillAsked(asked, pool[i], name, act);
          OpenTidy(pool[i], name);
        }
      case AddName(name, entry) =>
        StillAsked(asked, scheduler.idle, name, act);
        var result := AddTidy(name, entry);
      case RemoveName(name) =>
        RemoveTidy(name);
      case Reschedule =>
        Switch();
    }

    /** A whole run.  A thread that waits for a name goes on waiting until that name is registered. */
    method Run(acts: seq<Act>, pool: seq<Thread>) returns (pool': seq<Thread>)
      requires Valid() && Tidy() && scheduler.OneRunning() && forall t :: t in pool ==> t in scheduler.threads
      modifies this, entries, entries.buckets, queues, queues.buckets, Objects(), scheduler, scheduler.queues,
               scheduler.threads
      ensures Valid() && Tidy() && scheduler.OneRunning() && pool <= pool'
              && old(scheduler.threads) <= scheduler.threads
      ensures fresh(Objects() - old(Objects())) && fresh(scheduler.threads - old(scheduler.threads))
      ensures forall t :: t in old(asked) && NeverAdded(acts, old(asked)[t]) ==> t in asked && asked[t] == old(asked)[t]
    {
      hide Valid;
      hide Tidy;
      hide Scheduler.OneRunning;
      hide Refuses;
      hide NeverAdded;
      pool' := pool;
      var i := 0;
      while i < |acts|
        invariant 0 <= i <= |acts| && Valid() && Tidy() && scheduler.OneRunning()
        invariant pool <= pool' && old(scheduler.threads) <= scheduler.threads
        invariant fresh(Objects() - old(Objects())) && fresh(scheduler.threads - old(scheduler.threads))
        invariant forall t :: t in pool' ==> t in scheduler.threads
        invariant forall t :: t in old(asked) && NeverAdded(acts, old(asked)[t]) ==>
                    t in asked && asked[t] == old(asked)[t]
      {
        NotThis(acts, i);
        ghost var before := asked;
        pool' := Step(acts[i], pool');
        assert GoOn(before, asked, acts[i]);
        i := i + 1;
      }
    }

    /** The thread goes on, and is in its run queue. */
    ghost predicate GoesOn(t: Thread)
      reads this, t, scheduler.queues
    {
      t.state == Ready && t.waitingOn == 0 && scheduler.In(t, t.priority) && t !in asked
    }

    /** The thread waits in the queue of a name that is not registered. */
    ghost predicate WaitsIn(t: Thread, name: Name)
      reads entries, queues, Objects(), t
    {
      t.state == Waiting && name in Queued() && t in Queued()[name] && name !in entries.contents
    }

    /** A name that a thread waits for is registered, unless the map is full; then the thread goes on waiting. */
    method AddFor(t: Thread, name: Name, entry: Entry) returns (result: Result)
      requires Valid() && Tidy() && scheduler.OneRunning() && t in asked && asked[t] == name
      modifies this, entries, entries.buckets, queues, queues.buckets, Objects()
      modifies scheduler.queues, scheduler.threads`state, scheduler.threads`waitingOn
      modifies scheduler`stack, scheduler`currQueue, scheduler`currPriority, scheduler`evalNew, scheduler`threads
      ensures Valid() && Tidy() && scheduler.OneRunning()
      ensures (result == NoError && GoesOn(t)) || (result == NotAdded && Full(name) && WaitsIn(t, name))
    {
      hide Valid;
      hide Tidy;
      hide Scheduler.OneRunning;
      hide Scheduler.In;
      hide Full;
      ValidMaps();
      StillQueued(t);
      result := AddTidy(name, entry);
      if result == NotAdded {
        StillQueued(t);
      }
    }

    /**
      No wake-up is lost: a thread that opens a name in vain is, after any run that does not register the name and once
      the name is registered, ready and in its run queue.  Registering it fails only if the map of entries is full then,
      and the thread goes on waiting in the queue of the name.  (The map of queues must not refuse the queue.)
     */
    method WaitAndWake(t: Thread, name: Name, acts: seq<Act>, pool: seq<Thread>, entry: Entry) returns (result: Result)
      requires Valid() && Tidy() && scheduler.OneRunning() && t in scheduler.threads && Runnable(t.state)
      requires name !in entries.contents && !Refuses(name) && NeverAdded(acts, name)
      requires forall x :: x in pool ==> x in scheduler.threads
      modifies this, entries, entries.buckets, queues, queues.buckets, Objects(), scheduler, scheduler.queues,
               scheduler.threads
      ensures Valid() && Tidy() && scheduler.OneRunning()
      ensures (result == NoError && GoesOn(t)) || (result == NotAdded && Full(name) && WaitsIn(t, name))
    {
      hide Valid;
      hide Tidy;
      hide Scheduler.OneRunning;
      hide Refuses;
      hide Full;
      hide NeverAdded;
      hide GoesOn;
      hide WaitsIn;
      ValidMaps();
      OpenTidy(t, name);
      assert t in asked && asked[t] == name;
      var pool' := Run(acts, pool);
      result := AddFor(t, name, entry);
    }

    /** A thread that waits for a name is in its queue, and the name is not registered. */
    lemma StillQueued(t: Thread)
      requires Valid() && Tidy() && t in asked
      ensures asked[t] !in entries.contents && asked[t] in Queued() && t in Queued()[asked[t]]
      ensures t in scheduler.threads && t.state == Waiting
    {
      hide Scheduler.Valid;
      hide MapsOk;
      hide Queued;
      SoundAsked(entries.contents.Keys, Queued(), asked, scheduler.threads);
    }

    /**
      A wake-up is lost exactly if the map refuses a queue: then the thread waits in no queue, as long as it is not put
      into one.
     */
    method WaitInVain(t: Thread, name: Name)
      requires Valid() && Tidy() && scheduler.OneRunning() && t in scheduler.threads && Runnable(t.state)
      requires name !in entries.contents
      modifies this, queues, queues.buckets, Objects(), t`state, t`waitingOn, scheduler.queues
      modifies scheduler`stack, scheduler`currQueue, scheduler`currPriority, scheduler`evalNew
      ensures Valid() && Tidy() && t.state == Waiting
      ensures old(Refuses(name)) <==> forall n :: n in Queued() ==> t !in Queued()[n]
    {
      hide Scheduler.Valid;
      hide Scheduler.OneRunning;
      hide MapsOk;
      hide Refuses;
      hide Queued;
      OpenTidy(t, name);
    }

    lemma KnownNames()
      ensures forall name :: name in Queued() <==> name in queues.contents
    {
    }
  }
}
