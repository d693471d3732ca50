/**
 Optimistic locking (multi.c): the list of watched keys of each client and the index from keys to
 the clients that watch them, and what the flag that aborts EXEC remembers of the past.
 */
module Multi {
  import opened Sequences
  import opened Requests

  datatype WatchedKey = WatchedKey(db: nat, key: Text)

  class Client {
    var multi: bool
    var dirtyCas: bool
    var watched: seq<WatchedKey>
    var queue: seq<Command>

    constructor ()
      ensures !multi && !dirtyCas && watched == [] && queue == []
    {
      multi, dirtyCas, watched, queue := false, false, [], [];
    }
  }

  // ------------------------------------------------------------------
  // The past
  // ------------------------------------------------------------------

  /** What happened: a client began to watch a key, or stopped watching; keys were touched. */
  datatype Event = Watch(c: Client, wk: WatchedKey) | Clear(c: Client) | Touch(keys: set<WatchedKey>)

  ghost function WatchedStep(before: set<WatchedKey>, e: Event, c: Client): set<WatchedKey> {
    match e
    case Watch(d, wk) => if d == c then before + {wk} else before
    case Clear(d) => if d == c then {} else before
    case Touch(_) => before
  }

  /** The keys a client watches after the events. */
  ghost function WatchedAfter(log: seq<Event>, c: Client): set<WatchedKey> {
    if log == [] then {} else WatchedStep(WatchedAfter(log[..|log| - 1], c), log[|log| - 1], c)
  }

  /** The client watches the key from event `i` on. */
  ghost predicate WatchesFrom(log: seq<Event>, c: Client, i: nat, wk: WatchedKey) {
    i < |log| && log[i] == Watch(c, wk) && forall k :: i <= k < |log| ==> log[k] != Clear(c)
  }

  /** A key is watched when it was asked for and nothing has been cleared since. */
  ghost predicate WatchedSince(log: seq<Event>, c: Client, wk: WatchedKey) {
    exists i :: WatchesFrom(log, c, i, wk)
  }

  ghost predicate TouchesAt(log: seq<Event>, j: nat, wk: WatchedKey) {
    j < |log| && log[j].Touch? && wk in log[j].keys
  }

  /** Some key was touched while the client watched it, since it last stopped watching. */
  ghost predicate TouchedWhileWatched(log: seq<Event>, c: Client) {
    exists i: nat, j, wk :: i < j && WatchesFrom(log, c, i, wk) && TouchesAt(log, j, wk)
  }

  ghost predicate DirtyStep(dirty: bool, watched: set<WatchedKey>, e: Event, c: Client) {
    match e
    case Watch(_, _) => dirty
    case Clear(d) => d != c && dirty
    case Touch(keys) => dirty || keys * watched != {}
  }

  /** The same, worked out event by event. */
  ghost predicate DirtyAfter(log: seq<Event>, c: Client) {
    log != [] &&
    var before := log[..|log| - 1];
    DirtyStep(DirtyAfter(before, c), WatchedAfter(before, c), log[|log| - 1], c)
  }

  lemma {:induction false} WatchedAfterIs(log: seq<Event>, c: Client, wk: WatchedKey)
    ensures wk in WatchedAfter(log, c) <==> WatchedSince(log, c, wk)
  {
    if log != [] {
      var n := |log| - 1;
      var before := log[..n];
      WatchedAfterIs(before, c, wk);
      if WatchedSince(before, c, wk) && log[n] != Clear(c) {
        var i :| WatchesFrom(before, c, i, wk);
        assert WatchesFrom(log, c, i, wk);
      }
      if log[n] == Watch(c, wk) {
        assert WatchesFrom(log, c, n, wk);
      }
      if WatchedSince(log, c, wk) && log[n] != Watch(c, wk) {
        var i :| WatchesFrom(log, c, i, wk);
        assert WatchesFrom(before, c, i, wk);
      }
    }
  }

  /** A touch that counted before still counts, unless the client has cleared; a watched key may be touched now. */
  lemma TouchedGrows(log: seq<Event>, c: Client)
    requires log != []
    ensures var n := |log| - 1; var before := log[..n];
            TouchedWhileWatched(log, c) <==>
              log[n] != Clear(c) &&
              (TouchedWhileWatched(before, c) || (log[n].Touch? && exists wk :: wk in log[n].keys && WatchedSince(before, c, wk)))
  {
    var n := |log| - 1;
    var before := log[..n];
    assert forall k :: 0 <= k < n ==> before[k] == log[k];
    if log[n] != Clear(c) {
      if TouchedWhileWatched(before, c) {
        var i: nat, j, wk :| i < j && WatchesFrom(before, c, i, wk) && TouchesAt(before, j, wk);
        assert WatchesFrom(log, c, i, wk) && TouchesAt(log, j, wk);
      } else if log[n].Touch? {
        if wk :| wk in log[n].keys && WatchedSince(before, c, wk) {
          var i: nat :| WatchesFrom(before, c, i, wk);
          assert WatchesFrom(log, c, i, wk);
          assert i < n && TouchesAt(log, n, wk);
        }
      }
    }
    if TouchedWhileWatched(log, c) {
      var i: nat, j, wk :| i < j && WatchesFrom(log, c, i, wk) && TouchesAt(log, j, wk);
      assert WatchesFrom(before, c, i, wk) && log[n] != Clear(c);
      assert j < n ==> TouchesAt(before, j, wk);
    }
  }

  /** The flag of a client says exactly that a key was touched while watched, since the last clearing. */
  lemma {:induction false} DirtyMeansTouched(log: seq<Event>, c: Client)
    ensures DirtyAfter(log, c) <==> TouchedWhileWatched(log, c)
  {
    if log != [] {
      hide TouchedWhileWatched, WatchedSince;
      var n := |log| - 1;
      var before := log[..n];
      DirtyMeansTouched(before, c);
      TouchedGrows(log, c);
      if log[n].Touch? {
        forall wk ensures wk in WatchedAfter(before, c) <==> WatchedSince(before, c, wk) {
          WatchedAfterIs(before, c, wk);
        }
        var both := log[n].keys * WatchedAfter(before, c);
        if both != {} {
          var wk :| wk in both;
        }
        if wk :| wk in log[n].keys && wk in WatchedAfter(before, c) {
          assert wk in both;
        }
      }
    }
  }

  ghost predicate Mentions(e: Event, c: Client) {
    !e.Touch? && e.c == c
  }

  lemma {:induction false} Unmentioned(log: seq<Event>, c: Client)
    requires forall e :: e in log ==> !Mentions(e, c)
    ensures WatchedAfter(log, c) == {} && !DirtyAfter(log, c)
  {
    if log != [] {
      Unmentioned(log[..|log| - 1], c);
      assert log[|log| - 1] in log;
    }
  }

  lemma OneMore(log: seq<Event>, e: Event, c: Client)
    ensures WatchedAfter(log + [e], c) == WatchedStep(WatchedAfter(log, c), e, c)
    ensures DirtyAfter(log + [e], c) == DirtyStep(DirtyAfter(log, c), WatchedAfter(log, c), e, c)
  {
    assert (log + [e])[..|log|] == log;
  }

  // ------------------------------------------------------------------
  // The server
  // ------------------------------------------------------------------

  lemma OnlyOne<T>(s: seq<T>, x: T)
    requires NoDuplicates(s) && x in s
    ensures Without(s, x) == [] <==> forall y :: y in s ==> y == x
  {
    WithoutMembers(s, x);
    var left := Without(s, x);
    if left != [] {
      assert left[0] in left;
    }
  }

  type Index = map<WatchedKey, seq<Client>>

  class Server {
    var clients: seq<Client>
    /** For each database and key, the clients that watch it. */
    var index: Index
    /** The commands executed, in order, each with the client that asked for it. */
    var executed: seq<(Client, Command)>
    ghost var log: seq<Event>
    /** The clients there have ever been. */
    ghost var known: set<Client>

    /** A client watches a key exactly when the index lists it under that key; no list is empty or repeats. */
    ghost predicate Mirror()
      reads this`clients, this`index, set c | c in clients :: c`watched
    {
      && NoDuplicates(clients)
      && (forall c, wk :: c in clients ==> (wk in c.watched <==> wk in index && c in index[wk]))
      && (forall c :: c in clients ==> NoDuplicates(c.watched))
      && (forall wk :: wk in index ==> index[wk] != [] && NoDuplicates(index[wk]) && forall c :: c in index[wk] ==> c in clients)
    }

    /** The lists and flags say what the past says. */
    ghost predicate Remembers()
      reads this, clients
    {
      && (forall c :: c in clients ==> c in known)
      && (forall e :: e in log && !e.Touch? ==> e.c in known)
      && (forall c :: c in clients ==>
            && (set wk | wk in c.watched) == WatchedAfter(log, c)
            && c.dirtyCas == DirtyAfter(log, c)
            && (!c.multi ==> c.queue == []))
    }

    ghost predicate Valid()
      reads this, clients
    {
      Mirror() && Remembers()
    }

    constructor ()
      ensures Valid() && clients == [] && log == []
    {
      clients, index, executed, log, known := [], map[], [], [], {};
    }

    method Connect() returns (c: Client)
      requires Valid() && forall x :: x in known ==> allocated(x)
      modifies this`clients, this`known
      ensures Valid() && fresh(c) && clients == old(clients) + [c] && known == old(known) + {c}
    {
      c := new Client();
      assert c !in known;
      Unmentioned(log, c);
      clients, known := clients + [c], known + {c};
    }

    /** Adds a client to the list of a key, and the key to the list of the client. */
    method AddWatch(c: Client, wk: WatchedKey)
      requires Mirror() && c in clients && wk !in c.watched
      modifies this`index, c`watched
      ensures Mirror() && c.watched == old(c.watched) + [wk]
    {
      var watchers := if wk in index then index[wk] else [];
      assert c !in watchers;
      index := index[wk := watchers + [c]];
      c.watched := c.watched + [wk];
    }

    /** `watchForKey`. */
    method WatchForKey(c: Client, wk: WatchedKey)
      requires Valid() && c in clients
      modifies this`index, this`log, c`watched
      ensures Valid() && log == old(log) + (if wk in old(c.watched) then [] else [Watch(c, wk)])
      ensures c.watched == if wk in old(c.watched) then old(c.watched) else old(c.watched) + [wk]
    {
      hide WatchedAfter, DirtyAfter, Server.Mirror;
      if wk in c.watched {
        return;
      }
      forall x | x in clients {
        OneMore(log, Watch(c, wk), x);
      }
      AddWatch(c, wk);
      log := log + [Watch(c, wk)];
      assert (set k | k in c.watched) == old(set k | k in c.watched) + {wk};
    }

    /** One round of the loop of `unwatchAllKeys`: the first watched key. */
    method UnwatchFirst(c: Client)
      requires Mirror() && c in clients && c.watched != []
      modifies this`index, c`watched
      ensures Mirror() && c.watched == old(c.watched)[1..]
    {
      var wk := c.watched[0];
      assert wk in c.watched;
      var watchers := Without(index[wk], c);
      WithoutMembers(index[wk], c);
      OnlyOne(index[wk], c);
      index := if watchers == [] then index - {wk} else index[wk := watchers];
      ghost var rest := c.watched[1..];
      assert forall k :: k in c.watched <==> k == wk || k in rest;
      assert wk !in rest;
      c.watched := c.watched[1..];
    }

    /** `unwatchAllKeys`; the flag is up to the caller. */
    method UnwatchAllKeys(c: Client)
      requires Mirror() && c in clients
      modifies this`index, c`watched
      ensures Mirror() && c.watched == []
    {
      hide Server.Mirror;
      while c.watched != []
        invariant Mirror()
        decreases |c.watched|
      {
        UnwatchFirst(c);
      }
    }

    /** Stops watching and clears the flag, as UNWATCH, DISCARD and an aborted EXEC do. */
    method Forget(c: Client)
      requires Valid() && c in clients
      modifies this`index, this`log, c`watched, c`dirtyCas
      ensures Valid() && c.watched == [] && !c.dirtyCas && log == old(log) + [Clear(c)]
    {
      hide WatchedAfter, DirtyAfter, Server.Mirror;
      forall x | x in clients {
        OneMore(log, Clear(c), x);
      }
      UnwatchAllKeys(c);
      MirrorKept();
      c.dirtyCas := false;
      log := log + [Clear(c)];
    }

    lemma MirrorKept()
      requires Mirror()
      ensures NoDuplicates(clients)
    {
    }

    /** Marks the clients of a list. */
    static method Mark(watchers: seq<Client>)
      modifies set c | c in watchers :: c`dirtyCas
      ensures forall c :: c in watchers ==> c.dirtyCas
    {
      var i := 0;
      while i < |watchers|
        invariant 0 <= i <= |watchers| && forall k :: 0 <= k < i ==> watchers[k].dirtyCas
      {
        assert watchers[i] in watchers;
        watchers[i].dirtyCas := true;
        i := i + 1;
      }
    }

    /** After a touch, the clients that watch a key of the set have the flag; the others keep what they had. */
    lemma TouchRemembered(keys: set<WatchedKey>)
      requires Valid()
      ensures forall c :: c in clients ==>
                WatchedAfter(log + [Touch(keys)], c) == WatchedAfter(log, c)
                && (DirtyAfter(log + [Touch(keys)], c) <==> c.dirtyCas || exists wk :: wk in c.watched && wk in keys)
    {
      hide WatchedAfter, DirtyAfter, Server.Mirror;
      forall c | c in clients
        ensures WatchedAfter(log + [Touch(keys)], c) == WatchedAfter(log, c)
        ensures DirtyAfter(log + [Touch(keys)], c) <==> c.dirtyCas || exists wk :: wk in c.watched && wk in keys
      {
        OneMore(log, Touch(keys), c);
        var both := keys * WatchedAfter(log, c);
        if both != {} {
          var wk :| wk in both;
          assert wk in (set k | k in c.watched);
        }
        if wk :| wk in c.watched && wk in keys {
          assert wk in (set k | k in c.watched) && wk in both;
        }
      }
    }

    /** `touchWatchedKey`. */
    method TouchWatchedKey(wk: WatchedKey)
      requires Valid()
      modifies this`log, set c | c in clients :: c`dirtyCas
      ensures Valid() && log == old(log) + [Touch({wk})]
    {
      hide WatchedAfter, DirtyAfter;
      TouchRemembered({wk});
      if wk in index {
        Mark(index[wk]);
      }
      log := log + [Touch({wk})];
    }

    /** The existing keys of a database, or of all of them. */
    static ghost function Flushed(dbid: int, existing: set<WatchedKey>): set<WatchedKey> {
      set wk | wk in existing && (dbid == -1 || wk.db == dbid)
    }

    /** FLUSHALL touches every existing key, FLUSHDB those of its database. */
    static lemma FlushedIs(dbid: int, existing: set<WatchedKey>)
      ensures dbid == -1 ==> Flushed(dbid, existing) == existing
      ensures forall wk :: wk in Flushed(dbid, existing) <==> wk in existing && (dbid == -1 || wk.db == dbid)
    {
    }

    /** The inner loop of `touchWatchedKeysOnFlush`. */
    static method MarkIfFlushed(c: Client, dbid: int, existing: set<WatchedKey>)
      modifies c`dirtyCas
      ensures c.dirtyCas == (old(c.dirtyCas) || exists wk :: wk in c.watched && wk in Flushed(dbid, existing))
    {
      var i := 0;
      while i < |c.watched|
        invariant 0 <= i <= |c.watched|
        invariant c.dirtyCas == (old(c.dirtyCas) || exists k :: 0 <= k < i && c.watched[k] in Flushed(dbid, existing))
      {
        var wk := c.watched[i];
        if (dbid == -1 || wk.db == dbid) && wk in existing {
          c.dirtyCas := true;
        }
        i := i + 1;
      }
    }

    /** `touchWatchedKeysOnFlush`, given the keys that exist. */
    method TouchWatchedKeysOnFlush(dbid: int, existing: set<WatchedKey>)
      requires Valid()
      modifies this`log, set c | c in clients :: c`dirtyCas
      ensures Valid() && log == old(log) + [Touch(Flushed(dbid, existing))]
      ensures forall c :: c in clients ==>
                c.dirtyCas == (old(c.dirtyCas) || exists wk :: wk in c.watched && wk in existing && (dbid == -1 || wk.db == dbid))
    {
      hide WatchedAfter, DirtyAfter, Server.Mirror, Flushed;
      FlushedIs(dbid, existing);
      TouchRemembered(Flushed(dbid, existing));
      MirrorKept();
      MarkAllFlushed(clients, dbid, existing);
      log := log + [Touch(Flushed(dbid, existing))];
    }

    /** The outer loop of `touchWatchedKeysOnFlush`. */
    static method MarkAllFlushed(cs: seq<Client>, dbid: int, existing: set<WatchedKey>)
      requires NoDuplicates(cs)
      modifies set c | c in cs :: c`dirtyCas
      ensures forall c :: c in cs ==>
                c.dirtyCas == (old(c.dirtyCas) || exists wk :: wk in c.watched && wk in Flushed(dbid, existing))
    {
      hide Flushed;
      var i := 0;
      while i < |cs|
        invariant 0 <= i <= |cs|
        invariant forall k :: 0 <= k < i ==>
                    cs[k].dirtyCas == (old(cs[k].dirtyCas) || exists wk :: wk in cs[k].watched && wk in Flushed(dbid, existing))
        invariant forall k :: i <= k < |cs| ==> cs[k].dirtyCas == old(cs[k].dirtyCas)
      {
        assert cs[i] in cs;
        MarkIfFlushed(cs[i], dbid, existing);
        i := i + 1;
      }
    }

    /** `watchCommand`: WATCH is refused inside MULTI. */
    method WatchCommand(c: Client, keys: seq<WatchedKey>) returns (ok: bool)
      requires Valid() && c in clients
      modifies this`index, this`log, c`watched
      ensures Valid() && ok == !c.multi
      ensures old(c.watched) <= c.watched && old(log) <= log && (!ok ==> c.watched == old(c.watched) && log == old(log))
      ensures ok ==> forall k :: k in c.watched <==> k in old(c.watched) || k in keys
      ensures forall i :: |old(log)| <= i < |log| ==> log[i].Watch? && log[i].c == c
    {
      hide Server.Valid;
      if c.multi {
        return false;
      }
      var i := 0;
      while i < |keys|
        invariant 0 <= i <= |keys| && Valid()
        invariant old(c.watched) <= c.watched && old(log) <= log
        invariant forall k :: k in c.watched <==> k in old(c.watched) || k in keys[..i]
        invariant forall i :: |old(log)| <= i < |log| ==> log[i].Watch? && log[i].c == c
      {
        WatchForKey(c, keys[i]);
        i := i + 1;
      }
      ok := true;
    }

    /** `unwatchCommand`. */
    method UnwatchCommand(c: Client)
      requires Valid() && c in clients
      modifies this`index, this`log, c`watched, c`dirtyCas
      ensures Valid() && c.watched == [] && !c.dirtyCas && log == old(log) + [Clear(c)]
    {
      Forget(c);
    }

    /** `multiCommand`: no nesting. */
    method MultiCommand(c: Client) returns (ok: bool)
      requires Valid() && c in clients
      modifies c`multi
      ensures Valid() && ok == !old(c.multi) && c.multi
    {
      hide WatchedAfter, DirtyAfter, Server.Mirror;
      ok := !c.multi;
      c.multi := true;
    }

    /** `queueMultiCommand`. */
    method QueueMultiCommand(c: Client, cmd: Command)
      requires Valid() && c in clients && c.multi
      modifies c`queue
      ensures Valid() && c.queue == old(c.queue) + [cmd]
    {
      hide WatchedAfter, DirtyAfter, Server.Mirror;
      c.queue := c.queue + [cmd];
    }

    /** `discardTransaction`. */
    method DiscardTransaction(c: Client)
      requires Valid() && c in clients
      modifies this`index, this`log, c`watched, c`dirtyCas, c`multi, c`queue
      ensures Valid() && !c.multi && !c.dirtyCas && c.queue == [] && c.watched == [] && log == old(log) + [Clear(c)]
    {
      hide WatchedAfter, DirtyAfter, Server.Mirror;
      c.queue, c.multi := [], false;
      Forget(c);
    }

    /** `discardCommand`. */
    method DiscardCommand(c: Client) returns (ok: bool)
      requires Valid() && c in clients
      modifies this`index, this`log, c`watched, c`dirtyCas, c`multi, c`queue
      ensures Valid() && ok == old(c.multi) && !c.multi
      ensures ok ==> c.watched == [] && c.queue == [] && !c.dirtyCas && log == old(log) + [Clear(c)]
      ensures !ok ==> c.watched == old(c.watched) && c.queue == old(c.queue) && log == old(log)
    {
      hide Server.Valid;
      if !c.multi {
        return false;
      }
      DiscardTransaction(c);
      ok := true;
    }

    /** Executes queued commands; each touches the keys it changes. */
    method RunQueue(c: Client, queue: seq<Command>, changes: Command -> seq<WatchedKey>)
      requires Valid() && c in clients && c.watched == [] && !c.dirtyCas
      modifies this`executed, this`log, set x | x in clients :: x`dirtyCas
      ensures Valid() && !c.dirtyCas && executed == old(executed) + Attributed(c, queue)
      ensures log == old(log) + Touches(queue, changes)
    {
      hide Server.Valid;
      var j := 0;
      NoTouches(changes);
      assert queue[..0] == [] && executed == executed + Attributed(c, []);
      while j < |queue|
        invariant 0 <= j <= |queue| && Valid() && !c.dirtyCas
        invariant executed == old(executed) + Attributed(c, queue[..j])
        invariant log == old(log) + Touches(queue[..j], changes)
      {
        assert queue[..j + 1] == queue[..j] + [queue[j]];
        assert Attributed(c, queue[..j + 1]) == Attributed(c, queue[..j]) + [(c, queue[j])];
        TouchesMore(queue[..j], queue[j], changes);
        Execute(c, queue[j], changes(queue[j]));
        j := j + 1;
      }
      assert queue[..j] == queue;
    }

    /** `call`: the command is executed and signals the keys it changes. */
    method Execute(c: Client, cmd: Command, keys: seq<WatchedKey>)
      requires Valid() && c in clients && c.watched == [] && !c.dirtyCas
      modifies this`executed, this`log, set x | x in clients :: x`dirtyCas
      ensures Valid() && !c.dirtyCas && executed == old(executed) + [(c, cmd)]
      ensures log == old(log) + TouchEach(keys)
    {
      hide Server.Mirror, WatchedAfter, DirtyAfter;
      executed := executed + [(c, cmd)];
      var i := 0;
      while i < |keys|
        invariant 0 <= i <= |keys| && Valid() && !c.dirtyCas && executed == old(executed) + [(c, cmd)]
        invariant log == old(log) + TouchEach(keys)[..i]
      {
        TouchRemembered({keys[i]});
        TouchWatchedKey(keys[i]);
        i := i + 1;
      }
    }

    /**
     `execCommand`: the queue is executed as a whole, unless a key was touched while this client
     watched it since it last cleared its watches; then nothing is executed.
     */
    method ExecCommand(c: Client, changes: Command -> seq<WatchedKey>) returns (ok: bool, aborted: bool)
      requires Valid() && c in clients
      modifies this, c, set x | x in clients :: x`dirtyCas
      ensures Valid() && clients == old(clients)
      ensures ok == old(c.multi) && aborted == (ok && TouchedWhileWatched(old(log), c))
      ensures executed == old(executed) + if ok && !aborted then Attributed(c, old(c.queue)) else []
      ensures ok ==> !c.multi && c.watched == [] && c.queue == [] && !c.dirtyCas
      ensures !ok ==> c.watched == old(c.watched) && c.queue == old(c.queue)
      ensures log == old(log) + if !ok then [] else if aborted then [Clear(c)] else [Clear(c)] + Touches(old(c.queue), changes)
    {
      hide Server.Mirror, WatchedAfter, DirtyAfter, TouchedWhileWatched, Touches;
      DirtyMeansTouched(log, c);
      if !c.multi {
        return false, false;
      }
      if c.dirtyCas {
        DiscardTransaction(c);
        return true, true;
      }
      var queue := c.queue;
      Forget(c);
      RunQueue(c, queue, changes);
      c.queue, c.multi := [], false;
      return true, false;
    }

    /** `freeClient`, as far as watching is concerned. */
    method FreeClient(c: Client)
      requires Valid() && c in clients
      modifies this`index, this`clients, this`log, c`watched, c`dirtyCas
      ensures Valid() && c !in clients && forall x :: x in clients <==> x in old(clients) && x != c
      ensures log == old(log) + [Clear(c)]
    {
      hide WatchedAfter, DirtyAfter, NoDuplicates, Without;
      Forget(c);
      WithoutMembers(clients, c);
      assert forall wk :: wk in index ==> (wk in c.watched <==> c in index[wk]);
      clients := Without(clients, c);
    }
  }

  /** One touch for each key. */
  function TouchEach(keys: seq<WatchedKey>): (r: seq<Event>)
    ensures |r| == |keys| && forall i :: 0 <= i < |r| ==> r[i] == Touch({keys[i]})
  {
    seq(|keys|, i requires 0 <= i < |keys| => Touch({keys[i]}))
  }

  /** The touches of the keys that the commands change, one command after the other. */
  function Touches(cmds: seq<Command>, changes: Command -> seq<WatchedKey>): seq<Event> {
    if cmds == [] then [] else Touches(cmds[..|cmds| - 1], changes) + TouchEach(changes(cmds[|cmds| - 1]))
  }

  lemma NoTouches(changes: Command -> seq<WatchedKey>)
    ensures Touches([], changes) == []
  {
  }

  lemma TouchesMore(cmds: seq<Command>, cmd: Command, changes: Command -> seq<WatchedKey>)
    ensures Touches(cmds + [cmd], changes) == Touches(cmds, changes) + TouchEach(changes(cmd))
  {
    assert (cmds + [cmd])[..|cmds|] == cmds;
  }

  function Attributed(c: Client, cmds: seq<Command>): (r: seq<(Client, Command)>)
    ensures |r| == |cmds| && forall i :: 0 <= i < |r| ==> r[i] == (c, cmds[i])
  {
    seq(|cmds|, i requires 0 <= i < |cmds| => (c, cmds[i]))
  }
}
