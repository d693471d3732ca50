/**
 The master's side of replication (replication.c): slaves wait for a snapshot, receive it, and then
 receive every command executed since the snapshot was taken.
 */
module Replication {
  import opened Bytes
  import opened Sequences
  import opened Decimal
  import opened Requests
  import opened Keyspace
  import opened AofRewrite
  import Rdb

  // ------------------------------------------------------------------
  // The command stream of one slave
  // ------------------------------------------------------------------

  function SelectLine(j: nat): Text {
    SELECT_TO_SLAVES + [SPACE] + Show(j) + CRLF
  }

  /** The bytes added to the output of a slave for one command. */
  function FedTo(selected: int, j: nat, cmd: Command): Text {
    (if selected != j then SelectLine(j) else []) + Encode(cmd)
  }

  /** SELECT goes out, as an inline request, only when the database changes. */
  lemma SelectOnlyOnChange(j: nat, k: nat, cmd: Command)
    ensures FedTo(j, j, cmd) == Encode(cmd)
    ensures j != k ==> FedTo(j, k, cmd) == Ascii("select ") + Show(k) + [13, 10] + Encode(cmd)
  {
    hide Show, Encode;
    assert SELECT_TO_SLAVES + [SPACE] == Ascii("select ");
  }

  /** The commands a slave reads from them. */
  function ReadBy(selected: int, j: nat, cmd: Command): seq<Command> {
    (if selected != j then [[SELECT_TO_SLAVES, Show(j)]] else []) + [cmd]
  }

  /** A slave that has received the stream has executed exactly these commands. */
  ghost predicate Carries(stream: Text, log: seq<Command>) {
    Run(Fresh([]), stream) == (Fresh(log), [])
  }

  lemma PlainSelect(j: nat)
    ensures PlainWord(SELECT_TO_SLAVES) && PlainWord(Show(j)) && SELECT_TO_SLAVES[0] != STAR
  {
    ShowBytes(j);
  }

  lemma SelectLineRuns(done: seq<Command>, j: nat, t: Text)
    ensures Run(Fresh(done), SelectLine(j) + t) == Run(Fresh(done + [[SELECT_TO_SLAVES, Show(j)]]), t)
  {
    hide Run, Show, PlainWord;
    var ws := [SELECT_TO_SLAVES, Show(j)];
    PlainSelect(j);
    assert ws[1..] == [Show(j)];
    assert EncodeWords(ws) == SELECT_TO_SLAVES + [SPACE] + Show(j);
    LineIsExecuted(done, ws, t);
  }

  lemma CommandRuns(done: seq<Command>, cmd: Command)
    requires Sendable(cmd)
    ensures Run(Fresh(done), Encode(cmd)) == (Fresh(done + [cmd]), [])
  {
    CommandLeads(done, cmd, []);
    assert Encode(cmd) + [] == Encode(cmd);
  }

  lemma CarriesMore(stream: Text, log: seq<Command>, selected: int, j: nat, cmd: Command)
    requires Carries(stream, log) && Sendable(cmd)
    ensures Carries(stream + FedTo(selected, j, cmd), log + ReadBy(selected, j, cmd))
  {
    hide Run, SelectLine, Encode, Sendable;
    var added := FedTo(selected, j, cmd);
    RunResumes(Fresh([]), stream, added);
    assert [] + added == added;
    if selected != j {
      var sel := [[SELECT_TO_SLAVES, Show(j)]];
      SelectLineRuns(log, j, Encode(cmd));
      CommandRuns(log + sel, cmd);
      assert log + ReadBy(selected, j, cmd) == log + sel + [cmd];
    } else {
      assert added == Encode(cmd) && ReadBy(selected, j, cmd) == [cmd];
      CommandRuns(log, cmd);
    }
  }

  /** Starting from a snapshot, the log leads to the dataset and leaves database `selected` selected. */
  ghost predicate Follows(others: Others, snapshot: Dataset, log: seq<Command>, data: Dataset, selected: int) {
    && 0 < |snapshot| == |data|
    && Replay(others, State(snapshot, 0), log).data == data
    && Replay(others, State(snapshot, 0), log).db == selected
  }

  lemma FollowsOn(others: Others, snapshot: Dataset, log: seq<Command>, data: Dataset, selected: int, j: nat, cmd: Command)
    requires Follows(others, snapshot, log, data, selected) && Selectable(data) && j < |data| && !IsSelect(cmd)
    ensures Follows(others, snapshot, log + ReadBy(selected, j, cmd), Apply(others, data, j, cmd), j)
  {
    hide Replay, Apply;
    var st := Replay(others, State(snapshot, 0), log);
    var sel := if selected != j then [[SELECT_TO_SLAVES, Show(j)]] else [];
    ReplayConcat(others, State(snapshot, 0), log, ReadBy(selected, j, cmd));
    ReplayConcat(others, st, sel, [cmd]);
    if selected != j {
      ReplayOne(others, st, [SELECT_TO_SLAVES, Show(j)]);
      SelectSelects(others, st, j);
    } else {
      Unchanged(others, st);
    }
    ReplayOne(others, st.(db := j), cmd);
  }

  lemma Unchanged(others: Others, st: State)
    requires st.db < |st.data|
    ensures Replay(others, st, []) == st
  {
  }

  lemma FollowsOneSelection(others: Others, snapshot: Dataset, log: seq<Command>, data: Dataset, selected: int)
    requires Follows(others, snapshot, log, data, selected)
    ensures Follows(others, snapshot, log, data, 0) <==> selected == 0
  {
  }

  lemma NothingFollows(others: Others, data: Dataset)
    requires 0 < |data|
    ensures Follows(others, data, [], data, 0)
  {
    Unchanged(others, State(data, 0));
  }

  // ------------------------------------------------------------------
  // Slaves and master
  // ------------------------------------------------------------------

  datatype ReplState = WaitBgsaveStart | WaitBgsaveEnd | SendBulk | Online

  /** The bytes of the bulk transfer up to an offset of the dump file. */
  function Bulk(dump: Text, off: nat): Text
    requires off <= |dump|
  {
    if off == 0 then [] else [DOLLAR] + Show(|dump|) + CRLF + dump[..off]
  }

  /** The whole transfer is the dump file as one argument of the protocol, without the end of line. */
  lemma BulkIsArgument(dump: Text)
    requires dump != []
    ensures Bulk(dump, |dump|) + CRLF == EncodeBulk(dump)
  {
    hide Show;
    assert dump[..|dump|] == dump;
    assert [DOLLAR] + Show(|dump|) + CRLF + dump + CRLF == [DOLLAR] + Show(|dump|) + CRLF + (dump + CRLF);
  }

  lemma BulkGrows(dump: Text, off: nat, n: nat)
    requires off + n <= |dump| && n > 0
    ensures Bulk(dump, off + n) ==
            Bulk(dump, off) + (if off == 0 then [DOLLAR] + Show(|dump|) + CRLF else []) + dump[off..off + n]
  {
    hide Show;
    var header := [DOLLAR] + Show(|dump|) + CRLF;
    assert dump[..off + n] == dump[..off] + dump[off..off + n];
    if off == 0 {
      assert dump[..0 + n] == dump[0..0 + n] && [] + header == header;
    } else {
      assert header + dump[..off] + [] == header + dump[..off];
      assert header + (dump[..off] + dump[off..off + n]) == header + dump[..off] + dump[off..off + n];
    }
  }

  /** Where a slave stands in its transfer. */
  datatype Stage = Stage(replstate: ReplState, repldboff: nat, dump: Text, snapshot: Dataset, sound: bool,
                         output: Text, log: seq<Command>, slaveseldb: int)

  class Slave {
    var replstate: ReplState
    var slaveseldb: int
    /** Everything added to the output since it became a slave. */
    var output: Text
    /** The dump file it has opened, and how much of it has been sent. */
    var dump: Text
    var repldboff: nat
    /** What was written to the socket for the bulk transfer. */
    ghost var transferred: Text
    ghost var log: seq<Command>
    /** The dataset saved in its dump file. */
    ghost var snapshot: Dataset
    /**
     Whether it joined and was served without one of the three faults: output copied from a slave
     that had selected another database, a BGSAVE that could not be forked, or one that was killed.
     */
    ghost var sound: bool

    constructor ()
      ensures replstate == WaitBgsaveStart && output == [] && log == [] && sound && slaveseldb == 0 && repldboff == 0
    {
      replstate, slaveseldb, output, dump, repldboff := WaitBgsaveStart, 0, [], [], 0;
      transferred, log, snapshot, sound := [], [], [], true;
    }

    ghost function Now(): Stage
      reads this
    {
      Stage(replstate, repldboff, dump, snapshot, sound, output, log, slaveseldb)
    }

    /** The body of the loop of `replicationFeedSlaves`. */
    method Feed(j: nat, cmd: Command)
      requires Carries(output, log) && Sendable(cmd)
      modifies this`output, this`slaveseldb, this`log
      ensures Carries(output, log) && output == old(output) + FedTo(old(slaveseldb), j, cmd)
      ensures log == old(log) + ReadBy(old(slaveseldb), j, cmd) && slaveseldb == j
    {
      hide Carries, Encode, SelectLine, Sendable;
      CarriesMore(output, log, slaveseldb, j, cmd);
      log := log + ReadBy(slaveseldb, j, cmd);
      ghost var was, selected := output, slaveseldb;
      if slaveseldb != j {
        output := output + SelectLine(j);
        slaveseldb := j;
      }
      output := output + Encode(cmd);
      assert output == was + FedTo(selected, j, cmd);
    }

    /** `write` of the next piece, of which `n` bytes are taken, after the length if it is the first. */
    method SendPiece(n: nat)
      requires replstate.SendBulk? && Transferring() && 0 < n <= |dump| - repldboff
      modifies this`repldboff, this`transferred, this`replstate
      ensures Transferring() && repldboff == old(repldboff) + n && transferred == Bulk(dump, repldboff)
      ensures replstate == if repldboff == |dump| then Online else SendBulk
    {
      hide Bulk, Show;
      BulkGrows(dump, repldboff, n);
      transferred := transferred + (if repldboff == 0 then [DOLLAR] + Show(|dump|) + CRLF else [])
                     + dump[repldboff..repldboff + n];
      repldboff := repldboff + n;
      if repldboff == |dump| {
        replstate := Online;
      }
    }

    ghost predicate Transferring()
      reads this
    {
      repldboff <= |dump| && transferred == Bulk(dump, repldboff)
    }
  }

  /** What the master promises of a slave. */
  ghost predicate Tracks(others: Others, s: Slave, data: Dataset, child: Option<Dataset>)
    reads s
  {
    match s.replstate
    case WaitBgsaveStart => s.log == [] && s.slaveseldb == 0
    case WaitBgsaveEnd => child.Some? && Follows(others, child.value, s.log, data, s.slaveseldb)
    case _ => Follows(others, s.snapshot, s.log, data, s.slaveseldb)
  }

  /** There is a dump to send, and it can be opened for this slave. */
  predicate CanServe(failed: bool, canOpen: Slave -> bool, s: Slave) {
    !failed && canOpen(s)
  }

  /** Whether `updateSlavesWaitingBgsave` frees a slave that was in this state. */
  predicate Dismissed(was: ReplState, canServe: bool) {
    was.WaitBgsaveEnd? && !canServe
  }

  /** What the first loop of `updateSlavesWaitingBgsave` makes of a slave it keeps, given the dump file. */
  function AfterSave(was: Stage, dump: Text, saved: Dataset, good: bool): Stage {
    match was.replstate
    case WaitBgsaveStart => was.(replstate := WaitBgsaveEnd)
    case WaitBgsaveEnd =>
      was.(replstate := SendBulk, repldboff := 0, dump := dump, snapshot := saved, sound := was.sound && good)
    case _ => was
  }

  /** In plain terms: a slave that waited for the save is sent the dump from its start, and one that came too late waits for the next one. */
  predicate PlainlyServed(was: Stage, now: Stage, dump: Text, saved: Dataset, good: bool, forked: bool) {
    && now.output == was.output && now.log == was.log && now.slaveseldb == was.slaveseldb
    && now.sound == (was.sound && (was.replstate.WaitBgsaveEnd? ==> good) && (was.replstate.WaitBgsaveStart? ==> forked))
    && match was.replstate
       case WaitBgsaveStart => now.replstate.WaitBgsaveEnd? && now.dump == was.dump && now.repldboff == was.repldboff
       case WaitBgsaveEnd => now.replstate.SendBulk? && now.dump == dump && now.repldboff == 0 && now.snapshot == saved
       case _ => now.replstate == was.replstate && now.dump == was.dump && now.repldboff == was.repldboff
  }

  lemma ServedInPlainTerms(was: Stage, dump: Text, saved: Dataset, good: bool, forked: bool, failed: bool, canOpen: Slave -> bool, s: Slave)
    ensures PlainlyServed(was, AfterFork(AfterSave(was, dump, saved, good), forked), dump, saved, good, forked)
    ensures Dismissed(was.replstate, CanServe(failed, canOpen, s)) <==> was.replstate.WaitBgsaveEnd? && (failed || !canOpen(s))
  {
  }

  /** What a failure to fork the next save makes of the slaves that wait for it. */
  function AfterFork(was: Stage, forked: bool): Stage {
    if was.replstate.WaitBgsaveEnd? then was.(sound := was.sound && forked) else was
  }

  /** A slave that loads the file, whatever follows it and whenever it does, has the dataset. */
  ghost predicate Dumps(file: Text, d: Dataset, crc: Rdb.Checksum) {
    && 0 < |d|
    && forall rest, now, verify ::
         var r := Rdb.LoadFile(file + rest, |d|, now, false, verify, crc); r.Done? && r.data == d
  }

  /** A file that was saved when no key had expired is such a file. */
  lemma SavedFileDumps(file: Text, dbs: seq<seq<Item>>, d: Dataset, saved: int, checksum: bool, crc: Rdb.Checksum)
    requires 0 < |d| && ListsAll(dbs, d) && Rdb.SavesFile(file, dbs, saved, checksum, crc)
    requires forall j, i :: 0 <= j < |dbs| && 0 <= i < |dbs[j]| ==> Rdb.Savable(dbs[j][i])
    requires NoneExpired(d, saved) && Rdb.NoTimeMark(d)
    ensures Dumps(file, d, crc)
  {
    hide Rdb.LoadFile, Rdb.SavesFile, Rdb.Savable, Rdb.Kept, Rdb.Back, ListsAll, Rdb.NoTimeMark;
    forall j | 0 <= j < |d| ensures Rdb.Kept(d[j], saved, 0, false) == d[j] {
      NothingDropped(d[j], saved);
    }
    forall rest, now, verify
      ensures var r := Rdb.LoadFile(file + rest, |d|, now, false, verify, crc); r.Done? && r.data == d
    {
      Rdb.FileRoundTrip(file, dbs, d, saved, checksum, crc, rest, now, false, verify);
      forall j | 0 <= j < |d| ensures Rdb.Kept(d[j], saved, now, false) == d[j] {
        NothingDropped(d[j], saved);
      }
    }
  }

  lemma NothingDropped(db: Db, saved: int)
    requires forall k :: k in db && db[k].expire.Some? ==> db[k].expire.value >= saved
    ensures forall now :: Rdb.Kept(db, saved, now, false) == db
  {
  }

  class Master {
    const others: Others
    /** The checksum of dump files. */
    const crc: Rdb.Checksum
    ghost var data: Dataset
    var slaves: seq<Slave>
    /** The child that is saving, if there is one, with the dataset as it was at the fork. */
    ghost var child: Option<Dataset>
    var childActive: bool
    /** The dump file on disk and the dataset it holds. */
    var dumpFile: Text
    ghost var dumpData: Dataset

    ghost predicate Valid()
      reads this, slaves
    {
      && |data| > 0 && Selectable(data) && childActive == child.Some?
      && NoDuplicates(slaves)
      && (forall s :: s in slaves ==> Promised(s))
      && Dumps(dumpFile, dumpData, crc)
    }

    ghost predicate Promised(s: Slave)
      reads this`data, this`child, s
    {
      && Carries(s.output, s.log)
      && (s.sound ==> Tracks(others, s, data, child))
      && (s.replstate.SendBulk? ==> s.Transferring())
      && (s.replstate.SendBulk? || s.replstate.Online? ==> Dumps(s.dump, s.snapshot, crc))
    }

    /** A slave that loads its snapshot and executes what its output is parsed to has the live dataset. */
    lemma SlaveCatchesUp(s: Slave)
      requires Valid() && s in slaves && s.sound && !s.replstate.WaitBgsaveStart?
      ensures Run(Fresh([]), s.output) == (Fresh(s.log), [])
      ensures s.replstate.WaitBgsaveEnd? ==> child.Some?
      ensures !s.replstate.WaitBgsaveEnd? ==> Dumps(s.dump, s.snapshot, crc)
      ensures var saved := if s.replstate.WaitBgsaveEnd? then child.value else s.snapshot;
              |saved| == |data| && Replay(others, State(saved, 0), s.log) == State(data, s.slaveseldb)
    {
      hide Dumps, Run;
    }

    /** The server starts with a dump file on disk that may hold anything. */
    constructor (others: Others, crc: Rdb.Checksum, dbnum: nat, file: Text, ghost held: Dataset)
      requires 0 < dbnum <= LLONG_MAX && Dumps(file, held, crc)
      ensures Valid() && slaves == [] && child.None? && dumpFile == file && this.crc == crc
    {
      hide Dumps;
      this.others, this.crc := others, crc;
      data, slaves, child, childActive := seq(dbnum, _ => map[]), [], None, false;
      dumpFile, dumpData := file, held;
    }

    /** What feeding a command does to one slave: nothing while it waits for a snapshot to be started. */
    twostate predicate WasFed(s: Slave, j: nat, cmd: Command)
      reads s
    {
      if s.replstate.WaitBgsaveStart? then s.log == old(s.log) && s.slaveseldb == old(s.slaveseldb) && s.output == old(s.output)
      else
        && s.log == old(s.log) + ReadBy(old(s.slaveseldb), j, cmd) && s.slaveseldb == j
        && s.output == old(s.output) + FedTo(old(s.slaveseldb), j, cmd)
    }

    /** `replicationFeedSlaves`. */
    method ReplicationFeedSlaves(j: nat, cmd: Command)
      requires Valid() && Sendable(cmd)
      modifies set s | s in slaves :: s`output, set s | s in slaves :: s`slaveseldb, set s | s in slaves :: s`log
      ensures forall s :: s in slaves ==> Carries(s.output, s.log) && WasFed(s, j, cmd)
    {
      hide Dumps, Carries, Tracks, Sendable;
      assert forall k :: 0 <= k < |slaves| ==> slaves[k] in slaves && Promised(slaves[k]);
      var i := 0;
      while i < |slaves|
        invariant 0 <= i <= |slaves|
        invariant forall k :: 0 <= k < |slaves| ==> Carries(slaves[k].output, slaves[k].log)
        invariant forall k :: 0 <= k < i ==> WasFed(slaves[k], j, cmd)
        invariant forall k :: i <= k < |slaves| ==>
                    slaves[k].output == old(slaves[k].output) && slaves[k].log == old(slaves[k].log)
                    && slaves[k].slaveseldb == old(slaves[k].slaveseldb)
      {
        assert slaves[i] in slaves;
        if slaves[i].replstate != WaitBgsaveStart {
          slaves[i].Feed(j, cmd);
        }
        i := i + 1;
      }
    }

    /** `call` and `propagate` for a command that changes the dataset. */
    method Call(j: nat, cmd: Command)
      requires Valid() && j < |data| && Sendable(cmd) && !IsSelect(cmd)
      modifies this`data, set s | s in slaves :: s`output, set s | s in slaves :: s`slaveseldb, set s | s in slaves :: s`log
      ensures Valid() && data == Apply(others, old(data), j, cmd)
      ensures forall s :: s in slaves ==> WasFed(s, j, cmd)
    {
      hide Dumps, Carries, Sendable, Apply, Follows;
      forall s | s in slaves && s.sound && !s.replstate.WaitBgsaveStart?
        ensures Follows(others, if s.replstate.WaitBgsaveEnd? then child.value else s.snapshot,
                        s.log + ReadBy(s.slaveseldb, j, cmd), Apply(others, data, j, cmd), j)
      {
        assert Tracks(others, s, data, child);
        FollowsOn(others, if s.replstate.WaitBgsaveEnd? then child.value else s.snapshot, s.log, data, s.slaveseldb, j, cmd);
      }
      ReplicationFeedSlaves(j, cmd);
      data := Apply(others, data, j, cmd);
    }

    /** `rdbSaveBackground`: the child saves the dataset as it is now. */
    method RdbSaveBackground(forked: bool) returns (ok: bool)
      requires |data| > 0 && childActive == child.Some?
      modifies this`child, this`childActive
      ensures childActive == child.Some? && ok == (old(child).None? && forked)
      ensures child == if ok then Some(data) else old(child)
    {
      if childActive || !forked {
        return false;
      }
      child, childActive, ok := Some(data), true, true;
    }

    /** Forking a child harms no slave: none that is in step waits for the end of a save when there is none. */
    method SaveForSync(forked: bool) returns (ok: bool)
      requires Valid() && child.None?
      modifies this`child, this`childActive
      ensures Valid() && ok == forked && child == if ok then Some(data) else None
    {
      hide Dumps, Carries, Follows, Slave.Transferring;
      ok := RdbSaveBackground(forked);
    }

    /** The first slave that is waiting for the end of the save in progress. */
    method FindWaiting() returns (src: Option<Slave>)
      ensures src.Some? ==> src.value in slaves && src.value.replstate.WaitBgsaveEnd?
      ensures src.None? ==> forall s :: s in slaves ==> !s.replstate.WaitBgsaveEnd?
    {
      var i := 0;
      while i < |slaves|
        invariant 0 <= i <= |slaves| && forall k :: 0 <= k < i ==> !slaves[k].replstate.WaitBgsaveEnd?
      {
        if slaves[i].replstate == WaitBgsaveEnd {
          return Some(slaves[i]);
        }
        i := i + 1;
      }
      src := None;
    }

    /**
     `syncCommand` of a client whose output is empty. It joins a save another slave is waiting for
     by copying that slave's output; it is then behind a stream that has selected the other slave's
     database, but its own is taken to be 0.
     */
    method SyncCommand(c: Slave, connected: bool, pendingReplies: bool, forked: bool)
      returns (joined: bool, ghost src: Option<Slave>)
      requires Valid() && (c in slaves || (c.output == [] && c.log == [] && c.sound))
      modifies this`slaves, this`child, this`childActive, c
      ensures Valid()
      ensures joined == (c !in old(slaves) && connected && !pendingReplies && (old(child).Some? || forked))
      ensures slaves == if joined then old(slaves) + [c] else old(slaves)
      ensures joined && src.Some? ==>
                && src.value in old(slaves) && old(src.value.replstate.WaitBgsaveEnd?)
                && c.replstate.WaitBgsaveEnd? && c.output == old(src.value.output) && c.log == old(src.value.log)
                && c.sound == (old(src.value.sound) && old(src.value.slaveseldb) == 0)
                && (old(src.value.sound) ==> (Tracks(others, c, data, child) <==> old(src.value.slaveseldb) == 0))
      ensures joined ==> (src.Some? <==> old(child).Some? && exists s :: s in old(slaves) && old(s.replstate.WaitBgsaveEnd?))
      ensures joined && src.None? ==>
                && c.sound == old(c.sound) && c.output == old(c.output)
                && c.replstate == if old(child).None? then WaitBgsaveEnd else WaitBgsaveStart
      ensures child == if joined && old(child).None? then Some(data) else old(child)
    {
      hide Dumps, Carries, Follows;
      src := None;
      joined := false;
      if c in slaves || !connected || pendingReplies {
        return;
      }
      NothingCarried();
      if childActive {
        var found := FindWaiting();
        if found.Some? {
          var slave := found.value;
          src := found;
          assert slave.sound ==> Tracks(others, slave, data, child);
          if slave.sound {
            FollowsOneSelection(others, child.value, slave.log, data, slave.slaveseldb);
          }
          c.output, c.log, c.sound := slave.output, slave.log, slave.sound && slave.slaveseldb == 0;
          c.replstate := WaitBgsaveEnd;
        } else {
          c.replstate := WaitBgsaveStart;
        }
      } else {
        var ok := SaveForSync(forked);
        if !ok {
          return;
        }
        NothingFollows(others, data);
        c.replstate := WaitBgsaveEnd;
      }
      c.repldboff, c.slaveseldb := 0, 0;
      slaves := slaves + [c];
      joined := true;
    }

    /** A slave the first loop has been at: served, or waiting for the save that is about to start. */
    ghost predicate Served(s: Slave)
      reads this`data, s
    {
      && Carries(s.output, s.log) && !s.replstate.WaitBgsaveStart?
      && (s.replstate.SendBulk? ==> s.Transferring())
      && (s.replstate.SendBulk? || s.replstate.Online? ==> Dumps(s.dump, s.snapshot, crc))
      && (s.sound ==>
            if s.replstate.WaitBgsaveEnd? then s.log == [] && s.slaveseldb == 0
            else Follows(others, s.snapshot, s.log, data, s.slaveseldb))
    }

    /** A slave the first loop has not been at yet. */
    ghost predicate Unserved(s: Slave, saved: Dataset)
      reads this`data, s
    {
      && Carries(s.output, s.log)
      && (s.sound ==> Tracks(others, s, data, Some(saved)))
      && (s.replstate.SendBulk? ==> s.Transferring())
      && (s.replstate.SendBulk? || s.replstate.Online? ==> Dumps(s.dump, s.snapshot, crc))
    }

    /** A slave the first loop has kept, when it came to it in the given stage. */
    ghost predicate Done(s: Slave, was: Stage, canServe: bool, good: bool)
      reads this`data, this`dumpFile, this`dumpData, s
    {
      && !Dismissed(was.replstate, canServe) && Served(s) && s.Now() == AfterSave(was, dumpFile, dumpData, good)
    }

    lemma DoneIs(s: Slave, was: Stage, canServe: bool, good: bool)
      requires Done(s, was, canServe, good)
      ensures Served(s) && s.Now() == AfterSave(was, dumpFile, dumpData, good) && !Dismissed(was.replstate, canServe)
      ensures s.replstate.WaitBgsaveEnd? <==> was.replstate.WaitBgsaveStart?
    {
      hide Carries, Follows, Dumps;
    }

    /** One slave in the first loop of `updateSlavesWaitingBgsave`; not kept when it is to be freed. */
    method ServeWaiting(s: Slave, failed: bool, canOpen: Slave -> bool, ghost good: bool, ghost saved: Dataset)
      returns (keep: bool, start: bool)
      requires Unserved(s, saved) && (!failed && good ==> dumpData == saved) && Dumps(dumpFile, dumpData, crc)
      modifies s`replstate, s`dump, s`repldboff, s`transferred, s`snapshot, s`sound
      ensures keep == !Dismissed(old(s.Now()).replstate, CanServe(failed, canOpen, s)) && start == old(s.Now()).replstate.WaitBgsaveStart?
      ensures keep ==> Done(s, old(s.Now()), CanServe(failed, canOpen, s), good)
    {
      hide Dumps, Carries, Follows;
      keep, start := true, false;
      if s.replstate == WaitBgsaveStart {
        start := true;
        s.replstate := WaitBgsaveEnd;
      } else if s.replstate == WaitBgsaveEnd {
        if failed || !canOpen(s) {
          return false, false;
        }
        s.repldboff, s.dump := 0, dumpFile;
        s.transferred, s.snapshot, s.sound := [], dumpData, s.sound && good;
        s.replstate := SendBulk;
      }
    }

    /** The first loop of `updateSlavesWaitingBgsave`, after a child that had saved `saved`. */
    method ServeAll(failed: bool, canOpen: Slave -> bool, ghost good: bool, ghost saved: Dataset, ghost was: map<Slave, Stage>)
      returns (start: bool)
      requires NoDuplicates(slaves)
      requires forall s :: s in slaves ==> Unserved(s, saved) && s in was && s.Now() == was[s]
      requires forall s :: s in was ==> s in slaves
      requires (!failed && good ==> dumpData == saved) && Dumps(dumpFile, dumpData, crc)
      modifies this`slaves, slaves
      ensures NoDuplicates(slaves)
      ensures forall s :: s in slaves ==> s in was && Done(s, was[s], CanServe(failed, canOpen, s), good)
      ensures forall s :: s in was ==> s in slaves || Dismissed(was[s].replstate, CanServe(failed, canOpen, s))
      ensures start <==> exists s :: s in was && was[s].replstate.WaitBgsaveStart?
    {
      hide Dumps, Carries, Follows, Tracks, Master.Done, Master.Unserved, Slave.Transferring, Cut, AfterSave, Slave.Now, CanServe;
      var i := 0;
      start := false;
      while i < |slaves|
        invariant 0 <= i <= |slaves|
        invariant forall s :: s in slaves ==> s in old(slaves)
        invariant forall k :: 0 <= k < |slaves| ==> slaves[k] in was
        invariant NoDuplicates(slaves)
        invariant forall k :: 0 <= k < i ==> Done(slaves[k], was[slaves[k]], CanServe(failed, canOpen, slaves[k]), good)
        invariant forall k :: i <= k < |slaves| ==> Unserved(slaves[k], saved) && slaves[k].Now() == was[slaves[k]]
        invariant forall s :: s in was ==> s in slaves || Dismissed(was[s].replstate, CanServe(failed, canOpen, s))
        invariant start ==> exists s :: s in was && was[s].replstate.WaitBgsaveStart?
        invariant !start ==> forall k :: 0 <= k < i ==> !was[slaves[k]].replstate.WaitBgsaveStart?
        decreases |slaves| - i
      {
        var s := slaves[i];
        var keep, starts := ServeWaiting(s, failed, canOpen, good, saved);
        if keep {
          i := i + 1;
        } else {
          CutFacts(slaves, i);
          slaves := Cut(slaves, i);
        }
        start := start || starts;
      }
    }

    /**
     `updateSlavesWaitingBgsave`. Slaves that waited for the end of the save are sent the dump file, or
     freed if there is none to send; slaves that came too late for it wait for the next save. When that
     cannot be forked they are not freed, because by then none of them is in the state that is looked
     for. A slave stops being sound in two cases only: this save was not `good`, or the next one was not
     forked.
     */
    method UpdateSlavesWaitingBgsave(failed: bool, canOpen: Slave -> bool, forked: bool, ghost good: bool, ghost saved: Dataset)
      requires |data| > 0 && Selectable(data) && child.None? && !childActive
      requires NoDuplicates(slaves)
      requires forall s :: s in slaves ==> Unserved(s, saved)
      requires (!failed && good ==> dumpData == saved) && Dumps(dumpFile, dumpData, crc)
      modifies this`slaves, this`child, this`childActive, slaves
      ensures Valid()
      ensures forall s :: s in slaves ==>
                s in old(slaves) && s.output == old(s.output) && s.log == old(s.log) && s.slaveseldb == old(s.slaveseldb)
      ensures forall s :: s in slaves ==>
                s.sound == (old(s.sound) && (old(s.replstate).WaitBgsaveEnd? ==> good) && (old(s.replstate).WaitBgsaveStart? ==> forked))
      ensures forall s :: s in old(slaves) && old(s.replstate).WaitBgsaveEnd? ==> (s in slaves <==> !failed && canOpen(s))
      ensures forall s :: s in slaves && old(s.replstate).WaitBgsaveEnd? ==>
                s.replstate.SendBulk? && s.repldboff == 0 && s.dump == dumpFile && s.snapshot == dumpData
      ensures forall s :: s in old(slaves) && !old(s.replstate).WaitBgsaveEnd? ==>
                && s in slaves && s.dump == old(s.dump) && s.repldboff == old(s.repldboff)
                && s.replstate == if old(s.replstate).WaitBgsaveStart? then WaitBgsaveEnd else old(s.replstate)
      ensures child == if forked && exists s :: s in old(slaves) && old(s.replstate).WaitBgsaveStart? then Some(data) else None
    {
      hide Dumps, Carries, Follows, Tracks, Master.Served, Master.Unserved, Master.Done, AfterSave, AfterFork, Dismissed, CanServe;
      ghost var was := map s | s in slaves :: s.Now();
      var start := ServeAll(failed, canOpen, good, saved, was);
      forall s | s in slaves
        ensures Served(s) && s.Now() == AfterSave(was[s], dumpFile, dumpData, good)
        ensures !Dismissed(was[s].replstate, CanServe(failed, canOpen, s)) && (s.replstate.WaitBgsaveEnd? <==> was[s].replstate.WaitBgsaveStart?)
      {
        DoneIs(s, was[s], CanServe(failed, canOpen, s), good);
      }
      StartNextSave(start, forked);
      forall s | s in was
        ensures Dismissed(was[s].replstate, CanServe(failed, canOpen, s)) <==> was[s].replstate.WaitBgsaveEnd? && (failed || !canOpen(s))
        ensures s in slaves ==> PlainlyServed(was[s], s.Now(), dumpFile, dumpData, good, forked)
      {
        ServedInPlainTerms(was[s], dumpFile, dumpData, good, forked, failed, canOpen, s);
      }
    }

    /** The end of `updateSlavesWaitingBgsave`; `start` says that some slave waits for a save to be started. */
    method StartNextSave(start: bool, forked: bool)
      requires |data| > 0 && Selectable(data) && child.None? && !childActive
      requires NoDuplicates(slaves)
      requires forall s :: s in slaves ==> Served(s) && (s.replstate.WaitBgsaveEnd? ==> start)
      requires Dumps(dumpFile, dumpData, crc)
      modifies this`child, this`childActive, this`slaves, set s | s in slaves :: s`sound
      ensures Valid() && slaves == old(slaves) && child == if start && forked then Some(data) else None
      ensures forall s :: s in slaves ==> s.Now() == AfterFork(old(s.Now()), forked)
      ensures !forked ==> forall s :: s in slaves && s.replstate.WaitBgsaveEnd? ==> !Tracks(others, s, data, child)
    {
      hide Dumps, Carries, Follows;
      if start {
        NothingFollows(others, data);
        var ok := RdbSaveBackground(forked);
        if !ok {
          FreeWaitingForStart();
          forall s | s in slaves && s.replstate.WaitBgsaveEnd? {
            s.sound := false;
          }
        }
      }
    }

    /** The last loop of `updateSlavesWaitingBgsave`, which frees the slaves in one state. */
    method FreeWaitingForStart()
      modifies this`slaves
      ensures forall s :: s in slaves ==> s in old(slaves) && !s.replstate.WaitBgsaveStart?
      ensures (forall s :: s in old(slaves) ==> !s.replstate.WaitBgsaveStart?) ==> slaves == old(slaves)
    {
      var i := 0;
      while i < |slaves|
        invariant 0 <= i <= |slaves| && forall k :: 0 <= k < i ==> !slaves[k].replstate.WaitBgsaveStart?
        invariant forall s :: s in slaves ==> s in old(slaves)
        invariant (forall s :: s in old(slaves) ==> !s.replstate.WaitBgsaveStart?) ==> slaves == old(slaves)
        decreases |slaves| - i
      {
        if slaves[i].replstate == WaitBgsaveStart {
          assert slaves[i] in old(slaves);
          slaves := Cut(slaves, i);
        } else {
          i := i + 1;
        }
      }
    }

    /**
     `backgroundSaveDoneHandler`. A child that was killed has an exit code of 0 as well: slaves are
     then served the dump file that was there before.
     */
    method BackgroundSaveDoneHandler(exitcode: int, bysignal: bool, newDump: Text, canOpen: Slave -> bool, forked: bool)
      requires Valid() && childActive && (exitcode == 0 && !bysignal ==> Dumps(newDump, child.value, crc))
      modifies this, slaves
      ensures Valid() && data == old(data)
      ensures forall s :: s in slaves ==>
                s in old(slaves) && s.output == old(s.output) && s.log == old(s.log) && s.slaveseldb == old(s.slaveseldb)
      ensures forall s :: s in slaves ==>
                s.sound == (old(s.sound) && (old(s.replstate).WaitBgsaveEnd? ==> !bysignal) && (old(s.replstate).WaitBgsaveStart? ==> forked))
      ensures forall s :: s in old(slaves) && old(s.replstate).WaitBgsaveEnd? ==> (s in slaves <==> exitcode == 0 && canOpen(s))
      ensures forall s :: s in slaves && old(s.replstate).WaitBgsaveEnd? ==>
                s.replstate.SendBulk? && s.repldboff == 0 && s.dump == dumpFile && s.snapshot == dumpData
      ensures forall s :: s in old(slaves) && !old(s.replstate).WaitBgsaveEnd? ==>
                && s in slaves && s.dump == old(s.dump) && s.repldboff == old(s.repldboff)
                && s.replstate == if old(s.replstate).WaitBgsaveStart? then WaitBgsaveEnd else old(s.replstate)
      ensures child == if forked && exists s :: s in old(slaves) && old(s.replstate).WaitBgsaveStart? then Some(data) else None
      ensures exitcode == 0 ==> forall s :: s in slaves && old(s.replstate.WaitBgsaveEnd?) && old(s.sound) ==>
                (Follows(others, s.snapshot, s.log, data, s.slaveseldb)
                 <==> !bysignal || Follows(others, old(dumpData), s.log, data, s.slaveseldb))
      ensures exitcode == 0 && !bysignal ==> dumpFile == newDump && dumpData == old(child).value
      ensures !(exitcode == 0 && !bysignal) ==> dumpFile == old(dumpFile) && dumpData == old(dumpData)
    {
      hide Dumps, Carries, Follows, AfterSave, AfterFork, Dismissed, CanServe, Bulk;
      ghost var saved := child.value;
      if exitcode == 0 && !bysignal {
        dumpFile, dumpData := newDump, saved;
      }
      child, childActive := None, false;
      UpdateSlavesWaitingBgsave(exitcode != 0, canOpen, forked, !bysignal, saved);
    }

    method FreeClient(s: Slave)
      requires Valid() && s in slaves
      modifies this`slaves
      ensures Valid() && s !in slaves && forall x :: x in old(slaves) ==> x == s || x in slaves
      ensures forall x :: x in slaves ==> x in old(slaves)
    {
      hide Dumps, Carries, Tracks;
      var i :| 0 <= i < |slaves| && slaves[i] == s;
      slaves := Cut(slaves, i);
    }

    /**
     `sendBulkToSlave`: the length and then the dump file, piece by piece. `accepts` is what `write`
     answers for a piece, -1 or a positive number.
     */
    method SendBulkToSlave(s: Slave, headerWritten: bool, accepts: int)
      requires Valid() && s in slaves && s.replstate == SendBulk && (accepts == -1 || accepts > 0)
      modifies this`slaves, s`repldboff, s`transferred, s`replstate
      ensures Valid()
      ensures s in slaves <==> (old(s.repldboff) > 0 || headerWritten) && accepts > 0 && old(s.repldboff) < |s.dump|
      ensures s in slaves ==>
                && slaves == old(slaves) && s.Transferring()
                && s.repldboff == old(s.repldboff) + Min(accepts, Min(|s.dump| - old(s.repldboff), IOBUF_LEN))
                && s.replstate == if s.repldboff == |s.dump| then Online else SendBulk
      ensures forall x :: x in old(slaves) && x != s ==> x in slaves
    {
      hide Dumps, Carries, Follows;
      if s.repldboff == 0 && !headerWritten {
        FreeClient(s);
        return;
      }
      var buflen := Min(|s.dump| - s.repldboff, IOBUF_LEN);
      if buflen <= 0 || accepts == -1 {
        FreeClient(s);
        return;
      }
      s.SendPiece(Min(accepts, buflen));
    }
  }

  lemma NothingCarried()
    ensures Carries([], [])
  {
  }

  // ------------------------------------------------------------------
  // What the faults come to
  // ------------------------------------------------------------------

  /**
   A slave that took over the output of one with another database selected, while its own was taken
   to be 0: the next SET in database 0 reaches it without SELECT and is executed in the other one.
   */
  lemma CopiedSelectionMatters(others: Others, snapshot: Dataset, log: seq<Command>, data: Dataset, selected: nat, key: Text, v: Text)
    requires Follows(others, snapshot, log, data, selected) && 0 < selected < |data| && key !in data[0]
    ensures Replay(others, State(snapshot, 0), log + ReadBy(0, 0, [SET, key, v])).data != Apply(others, data, 0, [SET, key, v])
  {
    var cmd := [SET, key, v];
    ReplayConcat(others, State(snapshot, 0), log, [cmd]);
    ReplayOne(others, State(data, selected), cmd);
    assert ReadBy(0, 0, cmd) == [cmd];
    var wrong: Dataset := Perform(others, State(data, selected), cmd).data;
    var right: Dataset := Apply(others, data, 0, cmd);
    assert key !in wrong[0] && key in right[0];
  }

  /** The dataset in the file that is served once a child that had saved `saved` is gone. */
  function ServedDump(killed: bool, saved: Dataset, older: Dataset): Dataset {
    if killed then older else saved
  }

  /** Whatever was saved, fed and on disk before, waiting slaves are in step after they were served. */
  ghost predicate ServesInStep(others: Others, killed: bool) {
    forall saved: Dataset, older: Dataset, log: seq<Command>, data: Dataset, selected: int ::
      Follows(others, saved, log, data, selected) && |older| == |saved| ==>
        Follows(others, ServedDump(killed, saved, older), log, data, selected)
  }

  lemma Replays(others: Others, key: Text, x: Text)
    ensures var list, twice := Entry(List([x]), None), Entry(List([x, x]), None);
            && Replay(others, State([map[]], 0), [[RPUSH, key, x]]) == State([map[key := list]], 0)
            && Replay(others, State([map[key := list]], 0), [[RPUSH, key, x]]) == State([map[key := twice]], 0)
  {
    var cmd := [RPUSH, key, x];
    assert |RPUSH| == 5 && |SET| == 3 && cmd[2..] == [x] && [x] + [x] == [x, x];
    var empty: Db, one: Db := map[], map[key := Entry(List([x]), None)];
    ReplayOne(others, State([empty], 0), cmd);
    ReplayOne(others, State([one], 0), cmd);
    assert Pushed(empty, key, [x]) == one;
    assert Pushed(one, key, [x]) == map[key := Entry(List([x, x]), None)];
    assert [empty][0 := one] == [one];
    assert [one][0 := Pushed(one, key, [x])] == [Pushed(one, key, [x])];
  }

  /**
   A command fed since the fork is executed again by a slave whose dump holds its effect already: one
   that is served an older dump file that happens to equal the live dataset, after a killed child.
   */
  lemma ReplayedTwice(others: Others, key: Text, x: Text)
    ensures var saved: Dataset, live: Dataset := [map[]], [map[key := Entry(List([x]), None)]];
            var log := [[RPUSH, key, x]];
            && Follows(others, saved, log, live, 0)
            && ServedDump(true, saved, live) == live && !Follows(others, live, log, live, 0)
  {
    hide Replay;
    Replays(others, key, x);
    var one: Db, two: Db := map[key := Entry(List([x]), None)], map[key := Entry(List([x, x]), None)];
    assert one[key] != two[key];
    assert [one][0] != [two][0];
  }

  /** A dump that differs from the live dataset may serve: the command fed since replaces what differs. */
  lemma DumpMayDiffer(others: Others, key: Text, x: Text, y: Text)
    ensures var older: Dataset, live: Dataset := [map[key := Entry(Str(y), None)]], [map[key := Entry(Str(x), None)]];
            Follows(others, older, [[SET, key, x]], live, 0)
  {
    var older: Dataset, live: Dataset := [map[key := Entry(Str(y), None)]], [map[key := Entry(Str(x), None)]];
    var cmd := [SET, key, x];
    ReplayOne(others, State(older, 0), cmd);
    assert StringSet(older[0], key, x) == live[0];
    assert older[0 := live[0]] == live;
  }

  /** Serving waiting slaves is right whatever happened before if and only if the child was not killed. */
  lemma ServesInStepUnlessKilled(others: Others, killed: bool)
    ensures ServesInStep(others, killed) <==> !killed
  {
    hide Follows;
    if killed {
      ReplayedTwice(others, [], []);
      var saved: Dataset, live: Dataset := [map[]], [map[[] := Entry(List([[]]), None)]];
      assert Follows(others, saved, [[RPUSH, [], []]], live, 0) && |live| == |saved|;
      assert !Follows(others, ServedDump(true, saved, live), [[RPUSH, [], []]], live, 0);
    }
  }

  /** The dataset at the next fork, when `before` was executed since a slave was stranded. */
  ghost function ForkedAfter(others: Others, stranded: Dataset, before: seq<Command>): Dataset {
    if stranded == [] then stranded else Replay(others, State(stranded, 0), before).data
  }

  /** A slave stranded by a failed fork is fed `before` and `after`; the next fork falls between them. */
  ghost predicate StrandedIsRight(others: Others, stranded: Dataset, before: seq<Command>, after: seq<Command>, data: Dataset, selected: int) {
    Follows(others, stranded, before + after, data, selected) ==>
      Follows(others, ForkedAfter(others, stranded, before), before + after, data, selected)
  }

  /** Serving a stranded slave the dump of a later fork is right, whatever happened; `fed` says whether commands may come before that fork. */
  ghost predicate ServesStranded(others: Others, fed: bool) {
    forall stranded: Dataset, before: seq<Command>, after: seq<Command>, data: Dataset, selected: int ::
      before == [] || fed ==> StrandedIsRight(others, stranded, before, after, data, selected)
  }

  /** It is right in every history if and only if nothing is fed to the slave before that fork. */
  lemma StrandedServedUnlessFed(others: Others, fed: bool)
    ensures ServesStranded(others, fed) <==> !fed
  {
    hide Follows;
    if fed {
      var stranded: Dataset, forked: Dataset, log := [map[]], [map[[] := Entry(List([[]]), None)]], [[RPUSH, [], []]];
      StrandedSlaveDiverges(others, [], []);
      assert log + [] == log;
      assert !StrandedIsRight(others, stranded, log, [], forked, 0) by {
        Replays(others, [], []);
      }
    } else {
      forall stranded: Dataset, before: seq<Command>, after: seq<Command>, data: Dataset, selected: int | before == []
        ensures StrandedIsRight(others, stranded, before, after, data, selected)
      {
        if stranded != [] {
          Unchanged(others, State(stranded, 0));
        }
      }
    }
  }

  /** So a push fed to a stranded slave happens twice. */
  lemma StrandedSlaveDiverges(others: Others, key: Text, x: Text)
    ensures var stranded: Dataset, forked: Dataset := [map[]], [map[key := Entry(List([x]), None)]];
            Follows(others, stranded, [[RPUSH, key, x]], forked, 0) && !Follows(others, forked, [[RPUSH, key, x]], forked, 0)
  {
    hide Follows;
    ReplayedTwice(others, key, x);
  }
}
