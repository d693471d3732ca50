/**
 The output side of a client in networking.c: a static buffer followed by a list of chunks, lengths
 that are filled in after the elements they announce, and writes that may stop anywhere.

 A list node is known by a number where the source uses its address.
 */
module Replies {
  import opened Bytes
  import opened Decimal
  import opened Requests

  const REPLY_CHUNK_BYTES := 16384
  const MAX_WRITE_PER_EVENT := 65536

  /** A node of the reply list; without a text while its length is still to be filled in. */
  datatype Item = Item(id: nat, ptr: Option<Text>)

  /** What a client is to receive: bytes, and places where a length has yet to be written. */
  datatype Token = B(b: u8) | Hole(id: nat)

  function Raw(t: Text): (r: seq<Token>)
    ensures |r| == |t| && forall i :: 0 <= i < |t| ==> r[i] == B(t[i])
  {
    seq(|t|, i requires 0 <= i < |t| => B(t[i]))
  }

  function ItemTokens(it: Item): seq<Token> {
    if it.ptr.None? then [Hole(it.id)] else Raw(it.ptr.value)
  }

  function ListTokens(l: seq<Item>): seq<Token> {
    if l == [] then [] else ItemTokens(l[0]) + ListTokens(l[1..])
  }

  /** Writes `r` where the length `id` was left open. */
  function Fill(ts: seq<Token>, id: nat, r: seq<Token>): seq<Token> {
    if ts == [] then [] else (if ts[0] == Hole(id) then r else [ts[0]]) + Fill(ts[1..], id, r)
  }

  function Header(n: int): Text {
    [STAR] + Show(n) + CRLF
  }

  /** A header and the elements make the multi bulk text that a parser of the protocol reads. */
  lemma HeaderStartsCommand(c: Command)
    ensures Header(|c|) + EncodeBulks(c) == Encode(c) && Header(|c|) == [42] + Show(|c|) + [13, 10]
  {
    hide Show, EncodeBulks;
  }

  lemma RawConcat(a: Text, b: Text)
    ensures Raw(a + b) == Raw(a) + Raw(b)
  {
  }

  lemma ListUnfolds(l: seq<Item>)
    ensures ListTokens(l) == if l == [] then [] else ItemTokens(l[0]) + ListTokens(l[1..])
  {
  }

  lemma {:induction false} ListConcat(a: seq<Item>, b: seq<Item>)
    ensures ListTokens(a + b) == ListTokens(a) + ListTokens(b)
  {
    hide ListTokens, ItemTokens;
    ListUnfolds(a);
    if a == [] {
      assert a + b == b;
    } else {
      ListConcat(a[1..], b);
      assert (a + b)[0] == a[0] && (a + b)[1..] == a[1..] + b;
      ListUnfolds(a + b);
    }
  }

  lemma FillUnfolds(ts: seq<Token>, id: nat, r: seq<Token>)
    ensures Fill(ts, id, r) == if ts == [] then [] else (if ts[0] == Hole(id) then r else [ts[0]]) + Fill(ts[1..], id, r)
  {
  }

  lemma {:induction false} FillConcat(a: seq<Token>, b: seq<Token>, id: nat, r: seq<Token>)
    ensures Fill(a + b, id, r) == Fill(a, id, r) + Fill(b, id, r)
  {
    hide Fill;
    FillUnfolds(a, id, r);
    if a == [] {
      assert a + b == b;
    } else {
      FillConcat(a[1..], b, id, r);
      assert (a + b)[0] == a[0] && (a + b)[1..] == a[1..] + b;
      FillUnfolds(a + b, id, r);
      var front := if a[0] == Hole(id) then r else [a[0]];
      assert front + (Fill(a[1..], id, r) + Fill(b, id, r)) == front + Fill(a[1..], id, r) + Fill(b, id, r);
    }
  }

  lemma {:induction false} FillElsewhere(ts: seq<Token>, id: nat, r: seq<Token>)
    requires Hole(id) !in ts
    ensures Fill(ts, id, r) == ts
  {
    if ts != [] {
      FillElsewhere(ts[1..], id, r);
    }
  }

  lemma OneItem(it: Item)
    ensures ListTokens([it]) == ItemTokens(it)
  {
    assert [it][1..] == [];
    assert ItemTokens(it) + [] == ItemTokens(it);
  }

  predicate DistinctIds(l: seq<Item>) {
    forall i, j :: 0 <= i < j < |l| ==> l[i].id != l[j].id
  }

  lemma {:induction false} HolesOf(l: seq<Item>, id: nat)
    requires forall i :: 0 <= i < |l| ==> l[i].id != id || l[i].ptr.Some?
    ensures Hole(id) !in ListTokens(l)
  {
    if l != [] {
      HolesOf(l[1..], id);
    }
  }

  /** Filling in the node with the open length, wherever it is in the list. */
  lemma FillItem(l: seq<Item>, i: nat, t: Text)
    requires i < |l| && l[i].ptr.None? && DistinctIds(l)
    ensures ListTokens(l[i := l[i].(ptr := Some(t))]) == Fill(ListTokens(l), l[i].id, Raw(t))
  {
    var id := l[i].id;
    var it := l[i].(ptr := Some(t));
    var a, z := l[..i], l[i + 1..];
    assert l == a + ([l[i]] + z) && l[i := it] == a + ([it] + z);
    ListConcat(a, [l[i]] + z);
    ListConcat([l[i]], z);
    ListConcat(a, [it] + z);
    ListConcat([it], z);
    HolesOf(a, id);
    HolesOf(z, id);
    FillConcat(ListTokens(a), ListTokens([l[i]] + z), id, Raw(t));
    FillConcat(ListTokens([l[i]]), ListTokens(z), id, Raw(t));
    FillElsewhere(ListTokens(a), id, Raw(t));
    FillElsewhere(ListTokens(z), id, Raw(t));
    assert ListTokens([l[i]]) == [Hole(id)] && ListTokens([it]) == Raw(t);
    assert Fill([Hole(id)], id, Raw(t)) == Raw(t);
  }

  /** Joining two neighbouring nodes that both have their text. */
  lemma GlueItems(l: seq<Item>, i: nat)
    requires i + 1 < |l| && l[i].ptr.Some? && l[i + 1].ptr.Some?
    ensures ListTokens(l[..i] + [l[i].(ptr := Some(l[i].ptr.value + l[i + 1].ptr.value))] + l[i + 2..]) == ListTokens(l)
  {
    hide ListTokens, Raw;
    var a, z := l[..i], l[i + 2..];
    var it := l[i].(ptr := Some(l[i].ptr.value + l[i + 1].ptr.value));
    assert l == a + ([l[i]] + ([l[i + 1]] + z));
    ListConcat(a, [l[i]] + ([l[i + 1]] + z));
    ListConcat([l[i]], [l[i + 1]] + z);
    ListConcat([l[i + 1]], z);
    assert a + [it] + z == a + ([it] + z);
    ListConcat(a, [it] + z);
    ListConcat([it], z);
    OneItem(it);
    OneItem(l[i]);
    OneItem(l[i + 1]);
    RawConcat(l[i].ptr.value, l[i + 1].ptr.value);
  }

  // ------------------------------------------------------------------
  // Deferred lengths as if they had been written at once
  // ------------------------------------------------------------------

  datatype Op = Add(t: Text) | Defer(id: nat) | Resolve(id: nat, n: int)

  function Apply(ts: seq<Token>, op: Op): seq<Token> {
    match op
    case Add(t) => ts + Raw(t)
    case Defer(id) => ts + [Hole(id)]
    case Resolve(id, n) => Fill(ts, id, Raw(Header(n)))
  }

  /** What is to be received after the operations. */
  function Outcome(ts: seq<Token>, ops: seq<Op>): seq<Token>
    decreases |ops|
  {
    if ops == [] then ts else Outcome(Apply(ts, ops[0]), ops[1..])
  }

  function Resolution(ops: seq<Op>, id: nat): Option<int> {
    if ops == [] then None
    else if ops[0].Resolve? && ops[0].id == id then Some(ops[0].n)
    else Resolution(ops[1..], id)
  }

  predicate AllResolved(ops: seq<Op>) {
    ops == [] || ((ops[0].Defer? ==> Resolution(ops[1..], ops[0].id).Some?) && AllResolved(ops[1..]))
  }

  /** The bytes if every length had been known when its place came. */
  function Eager(ops: seq<Op>): Text
    requires AllResolved(ops)
  {
    if ops == [] then []
    else
      (match ops[0]
       case Add(t) => t
       case Defer(id) => Header(Resolution(ops[1..], id).value)
       case Resolve(_, _) => [])
      + Eager(ops[1..])
  }

  function Fills(ts: seq<Token>, ops: seq<Op>): seq<Token>
    decreases |ops|
  {
    if ops == [] then ts
    else Fills(if ops[0].Resolve? then Fill(ts, ops[0].id, Raw(Header(ops[0].n))) else ts, ops[1..])
  }

  lemma {:induction false} OutcomeSplits(a: seq<Token>, b: seq<Token>, ops: seq<Op>)
    ensures Outcome(a + b, ops) == Fills(a, ops) + Outcome(b, ops)
    decreases |ops|
  {
    if ops != [] {
      match ops[0]
      case Add(t) =>
        OutcomeSplits(a, b + Raw(t), ops[1..]);
        assert a + b + Raw(t) == a + (b + Raw(t));
      case Defer(id) =>
        OutcomeSplits(a, b + [Hole(id)], ops[1..]);
        assert a + b + [Hole(id)] == a + (b + [Hole(id)]);
      case Resolve(id, n) =>
        FillConcat(a, b, id, Raw(Header(n)));
        OutcomeSplits(Fill(a, id, Raw(Header(n))), Fill(b, id, Raw(Header(n))), ops[1..]);
    }
  }

  lemma {:induction false} FillsRaw(t: Text, ops: seq<Op>)
    ensures Fills(Raw(t), ops) == Raw(t)
    decreases |ops|
  {
    if ops != [] {
      if ops[0].Resolve? {
        FillElsewhere(Raw(t), ops[0].id, Raw(Header(ops[0].n)));
      }
      FillsRaw(t, ops[1..]);
    }
  }

  lemma {:induction false} FillsHole(id: nat, ops: seq<Op>)
    requires Resolution(ops, id).Some?
    ensures Fills([Hole(id)], ops) == Raw(Header(Resolution(ops, id).value))
    decreases |ops|
  {
    if ops[0].Resolve? {
      var r := Raw(Header(ops[0].n));
      if ops[0].id == id {
        assert Fill([Hole(id)], id, r) == r;
        FillsRaw(Header(ops[0].n), ops[1..]);
      } else {
        FillElsewhere([Hole(id)], ops[0].id, r);
        FillsHole(id, ops[1..]);
      }
    } else {
      FillsHole(id, ops[1..]);
    }
  }

  /** Once every open length has been filled in, the client receives what eager writing would have sent. */
  lemma {:induction false} DeferredIsEager(ops: seq<Op>)
    requires AllResolved(ops)
    ensures Outcome([], ops) == Raw(Eager(ops))
    decreases |ops|
  {
    if ops != [] {
      var rest := ops[1..];
      DeferredIsEager(rest);
      match ops[0]
      case Add(t) =>
        OutcomeSplits(Raw(t), [], rest);
        FillsRaw(t, rest);
        assert Raw(t) + [] == Raw(t) && [] + Raw(t) == Raw(t);
        RawConcat(t, Eager(rest));
      case Defer(id) =>
        OutcomeSplits([Hole(id)], [], rest);
        FillsHole(id, rest);
        assert [Hole(id)] + [] == [] + [Hole(id)] == [Hole(id)];
        RawConcat(Header(Resolution(rest, id).value), Eager(rest));
      case Resolve(_, _) =>
        assert [] + Eager(rest) == Eager(rest);
    }
  }

  // ------------------------------------------------------------------
  // The client
  // ------------------------------------------------------------------

  function Text0(o: Option<Text>): Text {
    match o case None => [] case Some(t) => t
  }

  /** All that was added: what has left, what is in the static buffer, what is in the list. */
  function Queue(gone: Text, b: Text, l: seq<Item>): seq<Token> {
    Raw(gone + b) + ListTokens(l)
  }

  lemma QueueGrows(gone: Text, b: Text, s: Text)
    ensures Queue(gone, b + s, []) == Queue(gone, b, []) + Raw(s)
  {
    assert gone + (b + s) == (gone + b) + s;
    RawConcat(gone + b, s);
  }

  lemma QueueListGrows(gone: Text, b: Text, l: seq<Item>, it: Item)
    ensures Queue(gone, b, l + [it]) == Queue(gone, b, l) + ItemTokens(it)
  {
    ListConcat(l, [it]);
    OneItem(it);
  }

  /** Appending to the last text of the list. */
  lemma QueueTailGrows(gone: Text, b: Text, l: seq<Item>, s: Text)
    requires l != [] && l[|l| - 1].ptr.Some?
    ensures var last := l[|l| - 1];
            Queue(gone, b, l[|l| - 1 := last.(ptr := Some(last.ptr.value + s))]) == Queue(gone, b, l) + Raw(s)
  {
    hide ListTokens, Raw;
    var last := l[|l| - 1];
    var it := last.(ptr := Some(last.ptr.value + s));
    var front := l[..|l| - 1];
    assert l == front + [last] && l[|l| - 1 := it] == front + [it];
    QueueListGrows(gone, b, front, last);
    QueueListGrows(gone, b, front, it);
    RawConcat(last.ptr.value, s);
  }

  lemma SplitChunk(x: Text, c: Text, tail: seq<Token>, n: nat)
    requires n <= |c|
    ensures (Raw(c) + tail)[..n] == Raw(c[..n])
    ensures Raw(x) + (Raw(c) + tail) == Raw(x + c[..n]) + (Raw(c) + tail)[n..]
  {
    assert Raw(c)[..n] == Raw(c[..n]);
    RawConcat(x, c[..n]);
    var q := Raw(c) + tail;
    assert q == Raw(c[..n]) + q[n..];
  }

  /** The chunk that is sent next: the static buffer if there is anything in it, then the head of the list. */
  function Chunk(b: Text, l: seq<Item>): Text {
    if b != [] then b else if l != [] then Text0(l[0].ptr) else []
  }

  lemma QueueIs(gone: Text, b: Text, l: seq<Item>)
    ensures Queue(gone, b, l) == Raw(gone) + (Raw(b) + ListTokens(l))
  {
    hide Raw, ListTokens;
    RawConcat(gone, b);
  }

  /** The first `n` bytes of the queue behind `gone` are those of the chunk being sent. */
  lemma QueueFront(gone: Text, b: Text, l: seq<Item>, n: nat)
    requires n <= |Chunk(b, l)|
    ensures var q := Raw(b) + ListTokens(l);
            n <= |q| && q[..n] == Raw(Chunk(b, l)[..n]) && Queue(gone, b, l) == Raw(gone + Chunk(b, l)[..n]) + q[n..]
  {
    hide Raw, ListTokens, Queue;
    var c := Chunk(b, l);
    var q := Raw(b) + ListTokens(l);
    ListUnfolds(l);
    QueueIs(gone, b, l);
    if b != [] {
      SplitChunk(gone, c, ListTokens(l), n);
    } else if l != [] && l[0].ptr.Some? {
      assert Raw(b) == [] && q == Raw(c) + ListTokens(l[1..]);
      SplitChunk(gone, c, ListTokens(l[1..]), n);
    } else {
      assert c[..n] == [] && gone + [] == gone && q[0..] == q;
    }
  }

  class Client {
    const buf: array<u8>
    var bufpos: nat
    var sentlen: nat
    var reply: seq<Item>
    var nextId: nat
    /** `REDIS_CLOSE_AFTER_REPLY`: nothing more is to be added. */
    var closing: bool
    /** Not connected, so nothing is ever added. */
    const fake: bool
    /** The bytes that writes have accepted. */
    ghost var sent: Text
    /** The part of `sent` that came from chunks that are gone. */
    ghost var gone: Text
    /** All that was added, in order. */
    ghost var added: seq<Token>

    constructor (fake: bool)
      ensures Valid() && fresh(buf) && sent == [] && added == [] && !closing && this.fake == fake
    {
      buf := new u8[REPLY_CHUNK_BYTES](_ => 0);
      bufpos, sentlen, reply, nextId, closing := 0, 0, [], 0, false;
      this.fake := fake;
      sent, gone, added := [], [], [];
    }

    /** The chunk that is being sent. */
    ghost function Current(): Text
      reads this, buf
      requires bufpos <= buf.Length
    {
      Chunk(buf[..bufpos], reply)
    }

    ghost predicate Valid()
      reads this, buf
    {
      Consistent() && (sentlen == 0 || sentlen < |Current()|)
    }

    ghost predicate Consistent()
      reads this, buf
    {
      && buf.Length == REPLY_CHUNK_BYTES && bufpos <= REPLY_CHUNK_BYTES
      && sentlen <= |Current()|
      && sent == gone + Current()[..sentlen]
      && DistinctIds(reply) && (forall i :: 0 <= i < |reply| ==> reply[i].id < nextId)
      && added == Queue(gone, buf[..bufpos], reply)
    }

    /** Sent and unsent together are what was added. */
    lemma NothingLost()
      requires Valid()
      ensures var queued := Raw(buf[..bufpos]) + ListTokens(reply);
              sentlen <= |queued| && added == Raw(sent) + queued[sentlen..]
    {
      hide ListTokens, Raw, Queue;
      QueueFront(gone, buf[..bufpos], reply, sentlen);
    }

    /** A length is open in the stream exactly when the list has an empty node for it. */
    lemma OpenNodes(id: nat)
      requires Valid()
      ensures Hole(id) in added <==> exists i :: 0 <= i < |reply| && reply[i] == Item(id, None)
    {
      hide ListTokens, Raw;
      HolesIn(reply, id);
      NoHoleInRaw(gone + buf[..bufpos], id);
    }

    /** With no length open, every node has its text, and the stream can be sent. */
    lemma AllHaveTexts()
      requires Valid() && forall id :: Hole(id) !in added
      ensures forall i :: 0 <= i < |reply| ==> reply[i].ptr.Some?
    {
      hide Valid, Queue;
      forall i | 0 <= i < |reply| ensures reply[i].ptr.Some? {
        OpenNodes(reply[i].id);
        assert reply[i] == Item(reply[i].id, reply[i].ptr);
      }
    }

    /** `memcpy(c->buf+c->bufpos,s,len); c->bufpos+=len`. */
    method CopyIn(s: Text)
      requires bufpos + |s| <= buf.Length
      modifies this`bufpos, buf
      ensures bufpos == old(bufpos) + |s| && buf[..bufpos] == old(buf[..bufpos]) + s
    {
      ghost var was := buf[..bufpos];
      forall i | 0 <= i < |s| {
        buf[bufpos + i] := s[i];
      }
      assert buf[..bufpos + |s|] == was + s;
      bufpos := bufpos + |s|;
    }

    /** `_addReplyToBuffer`. */
    method AddReplyToBuffer(s: Text) returns (ok: bool)
      requires Valid()
      modifies this`bufpos, this`added, buf
      ensures Valid() && sent == old(sent)
      ensures ok == (closing || (reply == [] && |s| <= REPLY_CHUNK_BYTES - old(bufpos)))
      ensures added == if ok && !closing then old(added) + Raw(s) else old(added)
    {
      hide Queue, Raw, ListTokens;
      var available := REPLY_CHUNK_BYTES - bufpos;
      if closing {
        return true;
      }
      if reply != [] || |s| > available {
        return false;
      }
      QueueGrows(gone, buf[..bufpos], s);
      ghost var c := Current();
      CopyIn(s);
      assert Current()[..sentlen] == c[..sentlen];
      added := added + Raw(s);
      ok := true;
    }

    /** `_addReplyObjectToList`, `_addReplySdsToList` and `_addReplyStringToList`. */
    method AddReplyToList(s: Text)
      requires Valid()
      modifies this`reply, this`nextId, this`added
      ensures Valid()
      ensures added == (if closing then old(added) else old(added) + Raw(s)) && nextId >= old(nextId)
    {
      hide Queue, Raw, ListTokens;
      if closing {
        return;
      }
      ghost var c := Current();
      if reply != [] && reply[|reply| - 1].ptr.Some? && |reply[|reply| - 1].ptr.value| + |s| <= REPLY_CHUNK_BYTES {
        var tail := reply[|reply| - 1];
        QueueTailGrows(gone, buf[..bufpos], reply, s);
        reply := reply[|reply| - 1 := tail.(ptr := Some(tail.ptr.value + s))];
      } else {
        var it := Item(nextId, Some(s));
        QueueListGrows(gone, buf[..bufpos], reply, it);
        reply, nextId := reply + [it], nextId + 1;
      }
      assert sentlen > 0 ==> c <= Current();
      added := added + Raw(s);
    }

    /** `addReplyString`, and `addReply` and `addReplySds` with the text of the object. */
    method AddReplyString(s: Text)
      requires Valid()
      modifies this`bufpos, this`added, this`reply, this`nextId, buf
      ensures Valid() && nextId >= old(nextId)
      ensures added == if fake || closing then old(added) else Apply(old(added), Add(s))
    {
      hide Queue, Raw, ListTokens, Valid;
      if fake {
        return;
      }
      var ok := AddReplyToBuffer(s);
      if !ok {
        AddReplyToList(s);
      }
    }

    /** `addReply` of an integer: printed on the spot when the static buffer has room for any number. */
    method AddReplyInteger(v: int)
      requires Valid() && InRange(v)
      modifies this`bufpos, this`added, this`reply, this`nextId, buf
      ensures Valid() && nextId >= old(nextId)
      ensures added == if fake || closing then old(added) else Apply(old(added), Add(Show(v)))
    {
      hide Queue, Raw, ListTokens, Show;
      if fake {
        return;
      }
      LongLongLength(v);
      if reply == [] && REPLY_CHUNK_BYTES - bufpos >= 32 {
        var digits := new u8[32](_ => 0);
        var len := Ll2string(digits, 32, v);
        assert digits[..len] == Show(v);
        var done := AddReplyToBuffer(digits[..len]);
      } else {
        AddReplyString(Show(v));
      }
    }

    /** `addDeferredMultiBulkLength`. */
    method AddDeferredMultiBulkLength() returns (node: Option<nat>)
      requires Valid()
      modifies this`added, this`reply, this`nextId
      ensures Valid() && node.None? == fake
      ensures node.Some? ==>
                && node.value == old(nextId) < nextId && added == Apply(old(added), Defer(node.value))
                && reply == old(reply) + [Item(node.value, None)]
      ensures node.None? ==> added == old(added) && reply == old(reply)
    {
      hide Queue, Raw, ListTokens;
      if fake {
        return None;
      }
      var it := Item(nextId, None);
      QueueListGrows(gone, buf[..bufpos], reply, it);
      reply, nextId := reply + [it], nextId + 1;
      added := added + [Hole(it.id)];
      node := Some(it.id);
    }

    /** `setDeferredMultiBulkLength`: writes the length and joins it to the next chunk. */
    method SetDeferredMultiBulkLength(node: Option<nat>, length: int)
      requires Valid()
      requires node.Some? ==> exists i :: 0 <= i < |reply| && reply[i] == Item(node.value, None)
      modifies this`added, this`reply
      ensures Valid() && added == if node.None? then old(added) else Apply(old(added), Resolve(node.value, length))
    {
      hide Queue, Raw, ListTokens, Header;
      if node.None? {
        return;
      }
      var i :| 0 <= i < |reply| && reply[i] == Item(node.value, None);
      QueueFills(gone, buf[..bufpos], reply, i, Header(length));
      reply := reply[i := Item(node.value, Some(Header(length)))];
      added := Fill(added, node.value, Raw(Header(length)));
      Glue(i);
    }

    /** Appends the next chunk of the list, when it has its text, to this one. */
    method Glue(i: nat)
      requires Valid() && i < |reply| && reply[i].ptr.Some? && (i == 0 && bufpos == 0 ==> sentlen == 0)
      modifies this`reply
      ensures Valid()
    {
      hide Queue, Raw, ListTokens;
      if i + 1 < |reply| && reply[i + 1].ptr.Some? {
        var len, next := reply[i], reply[i + 1];
        GlueItems(reply, i);
        var glued := reply[..i] + [len.(ptr := Some(len.ptr.value + next.ptr.value))] + reply[i + 2..];
        QueueOfSame(gone, buf[..bufpos], reply, glued);
        reply := glued;
      }
    }

    /** Takes the chunk just sent completely off the queue. */
    method DropChunk()
      requires Consistent() && (bufpos > 0 || (reply != [] && reply[0].ptr.Some?)) && sentlen == |Current()|
      modifies this`bufpos, this`sentlen, this`reply, this`gone
      ensures Valid() && bufpos == 0 && sentlen == 0
      ensures reply == if old(bufpos) > 0 then old(reply) else old(reply)[1..]
    {
      hide Queue, Raw, ListTokens;
      QueueMoves(gone, buf[..bufpos], reply);
      gone := gone + Current();
      if bufpos > 0 {
        bufpos := 0;
      } else {
        reply := reply[1..];
      }
      sentlen := 0;
      assert buf[..0] == [];
    }

    /** `c->sentlen += nwritten` after `write` has taken `n` bytes of the chunk. */
    method Wrote(n: nat)
      requires Valid() && n <= |Current()| - sentlen
      modifies this`sentlen, this`sent
      ensures Consistent() && sentlen == old(sentlen) + n
      ensures sent == old(sent) + Current()[old(sentlen)..sentlen]
    {
      hide Queue, Raw, ListTokens;
      ghost var c := Current();
      assert c[..sentlen + n] == c[..sentlen] + c[sentlen..sentlen + n];
      sent := sent + c[sentlen..sentlen + n];
      sentlen := sentlen + n;
    }

    /** One round of the loop of `sendReplyToClient`. */
    method Advance(n: nat)
      requires Valid() && (bufpos > 0 || (reply != [] && reply[0].ptr.Some?))
      requires n <= |Current()| - sentlen && (n > 0 || Current() == [])
      modifies this`bufpos, this`sentlen, this`reply, this`sent, this`gone
      ensures Valid() && |sent| == |old(sent)| + n && old(sent) <= sent
      ensures if old(sentlen) + n == |old(Current())| then bufpos == 0 && reply == (if old(bufpos) > 0 then old(reply) else old(reply)[1..])
              else sentlen == old(sentlen) + n && bufpos == old(bufpos) && reply == old(reply)
    {
      hide Queue, Raw, ListTokens;
      Wrote(n);
      if sentlen == if bufpos > 0 then bufpos else |reply[0].ptr.value| {
        DropChunk();
      }
    }

    /** What `write` takes of `len` bytes when it could take `n`. */
    static function Taken(n: int, len: nat): int {
      Max(-1, Min(n, len))
    }

    /**
     `sendReplyToClient`. The answers of `write` are `accepts(0)`, `accepts(1)`, ...; a master is
     sent nothing, its replies are dropped as if they had been sent. The result says whether the
     client is still there, and `calls` how often `write` had answered when it stopped.
     */
    method SendReplyToClient(master: bool, overMemory: bool, again: bool, accepts: nat -> int) returns (alive: bool, calls: nat)
      requires Valid() && forall i :: 0 <= i < |reply| ==> reply[i].ptr.Some?
      modifies this`bufpos, this`sentlen, this`reply, this`sent, this`gone
      ensures Valid() && added == old(added) && old(sent) <= sent
      ensures bufpos == 0 && reply == [] ==> Raw(sent) == added && alive == !closing
      ensures bufpos > 0 || reply != [] ==>
                || (!master && accepts(calls) <= 0 && alive == (accepts(calls) == 0 || again))
                || (alive && !overMemory && |sent| - |old(sent)| > 64 * 1024)
    {
      hide Queue, Raw, ListTokens;
      var nwritten, totwritten := 0, 0;
      calls := 0;
      while bufpos > 0 || reply != []
        invariant Valid() && added == old(added) && old(sent) <= sent && totwritten == |sent| - |old(sent)| && nwritten >= 0
        invariant forall i :: 0 <= i < |reply| ==> reply[i].ptr.Some?
        decreases |reply|, bufpos, |Current()| - sentlen
      {
        var objlen := if bufpos > 0 then bufpos else |reply[0].ptr.value|;
        if objlen == 0 {
          Advance(0);
          continue;
        }
        if master {
          nwritten := objlen - sentlen;
        } else {
          nwritten := Taken(accepts(calls), objlen - sentlen);
          if nwritten <= 0 {
            break;
          }
          calls := calls + 1;
        }
        Advance(nwritten);
        totwritten := totwritten + nwritten;
        if totwritten > MAX_WRITE_PER_EVENT && !overMemory {
          break;
        }
      }
      if nwritten == -1 && !again {
        return false, calls;
      }
      alive := true;
      if bufpos == 0 && reply == [] {
        sentlen := 0;
        QueueEmpty(gone);
        assert buf[..0] == [] && sent == gone;
        alive := !closing;
      }
    }
  }

  lemma QueueEmpty(gone: Text)
    ensures Queue(gone, [], []) == Raw(gone)
  {
    assert gone + [] == gone;
  }

  /** A chunk that has been sent completely has left the queue. */

  lemma QueueMoves(gone: Text, b: Text, l: seq<Item>)
    requires b != [] || (l != [] && l[0].ptr.Some?)
    ensures Queue(gone, b, l) == Queue(gone + Chunk(b, l), [], if b != [] then l else l[1..])
  {
    assert gone + b + [] == gone + b;
    if b == [] {
      ListUnfolds(l);
      RawConcat(gone, l[0].ptr.value);
      assert gone + b == gone;
    }
  }

  lemma QueueOfSame(gone: Text, b: Text, l: seq<Item>, l': seq<Item>)
    requires ListTokens(l) == ListTokens(l')
    ensures Queue(gone, b, l) == Queue(gone, b, l')
  {
  }

  lemma QueueFills(gone: Text, b: Text, l: seq<Item>, i: nat, t: Text)
    requires i < |l| && l[i].ptr.None? && DistinctIds(l)
    ensures Queue(gone, b, l[i := l[i].(ptr := Some(t))]) == Fill(Queue(gone, b, l), l[i].id, Raw(t))
  {
    FillItem(l, i, t);
    FillConcat(Raw(gone + b), ListTokens(l), l[i].id, Raw(t));
    FillElsewhere(Raw(gone + b), l[i].id, Raw(t));
  }

  lemma {:induction false} HolesIn(l: seq<Item>, id: nat)
    ensures Hole(id) in ListTokens(l) <==> exists i :: 0 <= i < |l| && l[i] == Item(id, None)
  {
    if l != [] {
      HolesIn(l[1..], id);
      assert forall i :: 1 <= i < |l| ==> l[i] == l[1..][i - 1];
      if l[0].ptr.Some? {
        NoHoleInRaw(l[0].ptr.value, id);
      }
    }
  }

  lemma NoHoleInRaw(t: Text, id: nat)
    ensures Hole(id) !in Raw(t)
  {
  }

  lemma {:induction false} HolesLeft(ts: seq<Token>, id: nat, t: Text, x: nat)
    ensures Hole(x) in Fill(ts, id, Raw(t)) <==> Hole(x) in ts && x != id
  {
    if ts != [] {
      HolesLeft(ts[1..], id, t, x);
      NoHoleInRaw(t, x);
    }
  }

  // ------------------------------------------------------------------
  // Whole conversations
  // ------------------------------------------------------------------

  /** The server replies, or the socket can be written to. */
  datatype Event = Do(op: Op) | Send(accepts: nat -> int)

  /** The replies among the events. */
  function Ops(events: seq<Event>): seq<Op> {
    if events == [] then []
    else Ops(events[..|events| - 1]) + OpsOf(events[|events| - 1])
  }

  function OpsOf(e: Event): seq<Op> {
    match e case Do(op) => [op] case Send(_) => []
  }

  /** The lengths that are open after some replies, and those there have been. */
  datatype Lengths = Lengths(open: set<nat>, used: set<nat>)

  function After(ls: Lengths, e: Event): Lengths {
    match e
    case Do(Defer(id)) => Lengths(ls.open + {id}, ls.used + {id})
    case Do(Resolve(id, _)) => Lengths(ls.open - {id}, ls.used)
    case _ => ls
  }

  function LengthsAfter(events: seq<Event>): Lengths {
    if events == [] then Lengths({}, {}) else After(LengthsAfter(events[..|events| - 1]), events[|events| - 1])
  }

  /** Every length has its own name and is filled in while it is open; nothing is sent before all are. */
  predicate Orderly(events: seq<Event>) {
    forall i :: 0 <= i < |events| ==> InOrder(LengthsAfter(events[..i]), events[i])
  }

  predicate InOrder(ls: Lengths, e: Event) {
    match e
    case Do(Defer(id)) => id !in ls.used
    case Do(Resolve(id, _)) => id in ls.open
    case Do(Add(_)) => true
    case Send(_) => ls.open == {}
  }

  /** The replies with the numbers of the nodes for the names of the lengths. */
  function Named(ops: seq<Op>, m: map<nat, nat>): seq<Op>
    requires NamesIn(ops, m)
  {
    if ops == [] then []
    else [NameIn(ops[0], m)] + Named(ops[1..], m)
  }

  function NameIn(op: Op, m: map<nat, nat>): Op
    requires !op.Add? ==> op.id in m
  {
    match op
    case Add(t) => Add(t)
    case Defer(id) => Defer(m[id])
    case Resolve(id, n) => Resolve(m[id], n)
  }

  predicate NamesIn(ops: seq<Op>, m: map<nat, nat>) {
    forall i :: 0 <= i < |ops| && !ops[i].Add? ==> ops[i].id in m
  }

  predicate Injective(m: map<nat, nat>) {
    forall a, b :: a in m && b in m && m[a] == m[b] ==> a == b
  }

  lemma {:induction false} NamedResolution(ops: seq<Op>, m: map<nat, nat>, id: nat)
    requires NamesIn(ops, m) && Injective(m) && id in m
    ensures Resolution(Named(ops, m), m[id]) == Resolution(ops, id)
  {
    if ops != [] {
      assert ops[0] in ops;
      NamedResolution(ops[1..], m, id);
      assert Named(ops, m)[1..] == Named(ops[1..], m);
    }
  }

  /** The names do not matter. */
  lemma {:induction false} NamedIsEager(ops: seq<Op>, m: map<nat, nat>)
    requires NamesIn(ops, m) && Injective(m) && AllResolved(ops)
    ensures AllResolved(Named(ops, m)) && Eager(Named(ops, m)) == Eager(ops)
  {
    if ops != [] {
      NamedIsEager(ops[1..], m);
      assert Named(ops, m)[1..] == Named(ops[1..], m);
      if ops[0].Defer? {
        NamedResolution(ops[1..], m, ops[0].id);
      }
    }
  }

  lemma {:induction false} NamedAppend(ops: seq<Op>, op: Op, m: map<nat, nat>, m': map<nat, nat>)
    requires NamesIn(ops, m) && NamesIn(ops + [op], m') && forall id :: id in m ==> id in m' && m'[id] == m[id]
    ensures NamesIn([op], m') && Named(ops + [op], m') == Named(ops, m) + Named([op], m')
  {
    assert (ops + [op])[|ops|] == op;
    if ops == [] {
      assert ops + [op] == [op];
    } else {
      assert (ops + [op])[0] == ops[0] && (ops + [op])[1..] == ops[1..] + [op];
      NamedAppend(ops[1..], op, m, m');
    }
  }

  lemma {:induction false} OutcomeAppend(ts: seq<Token>, ops: seq<Op>, op: Op)
    ensures Outcome(ts, ops + [op]) == Apply(Outcome(ts, ops), op)
    decreases |ops|
  {
    if ops == [] {
      assert ops + [op] == [op] && [op][1..] == [];
    } else {
      assert (ops + [op])[0] == ops[0] && (ops + [op])[1..] == ops[1..] + [op];
      OutcomeAppend(Apply(ts, ops[0]), ops[1..], op);
    }
  }

  /** The stream is the outcome of the replies under the names of the nodes, and its open lengths are those open now. */
  ghost predicate Matches(added: seq<Token>, ops: seq<Op>, m: map<nat, nat>, ls: Lengths, nextId: nat) {
    && NamesIn(ops, m) && Injective(m) && m.Keys == ls.used && ls.open <= ls.used
    && (forall id :: id in m ==> m[id] < nextId)
    && added == Outcome([], Named(ops, m))
    && (forall id :: id in m ==> (Hole(m[id]) in added <==> id in ls.open))
    && (forall x :: Hole(x) in added ==> exists id :: id in m && m[id] == x)
  }

  lemma MatchesAdd(added: seq<Token>, ops: seq<Op>, m: map<nat, nat>, ls: Lengths, nextId: nat, t: Text, nextId': nat)
    requires Matches(added, ops, m, ls, nextId) && nextId <= nextId'
    ensures Matches(Apply(added, Add(t)), ops + [Add(t)], m, After(ls, Do(Add(t))), nextId')
  {
    hide Outcome, Named, Injective;
    forall x ensures Hole(x) in Apply(added, Add(t)) <==> Hole(x) in added {
      NoHoleInRaw(t, x);
    }
    NamedAppend(ops, Add(t), m, m);
    NamedOne(Add(t), m);
    OutcomeAppend([], Named(ops, m), Add(t));
  }

  lemma MatchesDefer(added: seq<Token>, ops: seq<Op>, m: map<nat, nat>, ls: Lengths, nextId: nat, id: nat, nextId': nat)
    requires Matches(added, ops, m, ls, nextId) && id !in ls.used && nextId < nextId'
    ensures Matches(Apply(added, Defer(nextId)), ops + [Defer(id)], m[id := nextId], After(ls, Do(Defer(id))), nextId')
  {
    hide Outcome, Named;
    var m' := m[id := nextId];
    NamedAppend(ops, Defer(id), m, m');
    NamedOne(Defer(id), m');
    OutcomeAppend([], Named(ops, m), Defer(nextId));
    assert forall x :: Hole(x) in Apply(added, Defer(nextId)) <==> Hole(x) in added || x == nextId;
    assert m'[id] == nextId;
  }

  lemma MatchesResolve(added: seq<Token>, ops: seq<Op>, m: map<nat, nat>, ls: Lengths, nextId: nat, id: nat, n: int)
    requires Matches(added, ops, m, ls, nextId) && id in ls.open
    ensures id in m && Hole(m[id]) in added
    ensures Matches(Apply(added, Resolve(m[id], n)), ops + [Resolve(id, n)], m, After(ls, Do(Resolve(id, n))), nextId)
  {
    hide Outcome, Named, Header;
    assert id in m;
    NamedAppend(ops, Resolve(id, n), m, m);
    NamedOne(Resolve(id, n), m);
    OutcomeAppend([], Named(ops, m), Resolve(m[id], n));
    forall x ensures Hole(x) in Apply(added, Resolve(m[id], n)) <==> Hole(x) in added && x != m[id] {
      HolesLeft(added, m[id], Header(n), x);
    }
  }

  lemma NamedOne(op: Op, m: map<nat, nat>)
    requires NamesIn([op], m)
    ensures !op.Add? ==> op.id in m
    ensures Named([op], m) == [NameIn(op, m)]
  {
    assert [op][0] == op && [op][1..] == [];
  }

  lemma OneMoreEvent(events: seq<Event>, i: nat)
    requires i < |events|
    ensures LengthsAfter(events[..i + 1]) == After(LengthsAfter(events[..i]), events[i])
    ensures Ops(events[..i + 1]) == Ops(events[..i]) + OpsOf(events[i])
  {
    assert events[..i + 1][..i] == events[..i];
  }

  lemma NothingOpen(added: seq<Token>, ops: seq<Op>, m: map<nat, nat>, ls: Lengths, nextId: nat)
    requires Matches(added, ops, m, ls, nextId) && ls.open == {}
    ensures forall x :: Hole(x) !in added
  {
  }

  lemma MatchedIsEager(added: seq<Token>, ops: seq<Op>, m: map<nat, nat>, ls: Lengths, nextId: nat)
    requires Matches(added, ops, m, ls, nextId) && AllResolved(ops)
    ensures added == Raw(Eager(ops))
  {
    NamedIsEager(ops, m);
    DeferredIsEager(Named(ops, m));
  }

  /**
   A client that is connected, from its first reply on: replies of any kind, lengths filled in later, and
   writes that take as much as they like. What has been sent and what is left are together the bytes of
   the replies with every length written at once.
   */
  method Converse(events: seq<Event>) returns (c: Client)
    requires Orderly(events) && AllResolved(Ops(events))
    ensures fresh(c) && c.Valid()
    ensures var queued := Raw(c.buf[..c.bufpos]) + ListTokens(c.reply);
            c.sentlen <= |queued| && Raw(c.sent) + queued[c.sentlen..] == Raw(Eager(Ops(events)))
  {
    hide Client.Valid, Matches, Apply, Ops, LengthsAfter, After, AllResolved, ListTokens, Raw, Eager;
    c := new Client(false);
    var nodes: map<nat, nat> := map[];
    Unstarted(c.nextId);
    assert events[..0] == [];
    var i := 0;
    while i < |events|
      invariant 0 <= i <= |events| && fresh(c) && fresh(c.buf) && c.Valid() && !c.fake && !c.closing
      invariant Matches(c.added, Ops(events[..i]), nodes, LengthsAfter(events[..i]), c.nextId)
    {
      ghost var ops, ls := Ops(events[..i]), LengthsAfter(events[..i]);
      OneMoreEvent(events, i);
      assert InOrder(ls, events[i]);
      nodes := React(c, events[i], nodes, ops, ls);
      i := i + 1;
    }
    assert events[..i] == events;
    MatchedIsEager(c.added, Ops(events), nodes, LengthsAfter(events), c.nextId);
    c.NothingLost();
  }

  lemma Unstarted(nextId: nat)
    ensures Matches([], Ops([]), map[], LengthsAfter([]), nextId)
  {
  }

  method React(c: Client, e: Event, nodes: map<nat, nat>, ghost ops: seq<Op>, ghost ls: Lengths) returns (nodes': map<nat, nat>)
    requires c.Valid() && !c.fake && !c.closing
    requires Matches(c.added, ops, nodes, ls, c.nextId) && InOrder(ls, e)
    modifies c, c.buf
    ensures c.Valid() && !c.closing
    ensures Matches(c.added, ops + OpsOf(e), nodes', After(ls, e), c.nextId)
  {
    hide Client.Valid, Matches, Apply;
    nodes' := nodes;
    match e
    case Do(Add(t)) =>
      ghost var before, next := c.added, c.nextId;
      c.AddReplyString(t);
      MatchesAdd(before, ops, nodes, ls, next, t, c.nextId);
    case Do(Defer(id)) =>
      ghost var before, next := c.added, c.nextId;
      var node := c.AddDeferredMultiBulkLength();
      nodes' := nodes[id := node.value];
      MatchesDefer(before, ops, nodes, ls, next, id, c.nextId);
    case Do(Resolve(id, n)) =>
      MatchesResolve(c.added, ops, nodes, ls, c.nextId, id, n);
      c.OpenNodes(nodes[id]);
      c.SetDeferredMultiBulkLength(Some(nodes[id]), n);
    case Send(accepts) =>
      NothingOpen(c.added, ops, nodes, ls, c.nextId);
      c.AllHaveTexts();
      var alive, calls := c.SendReplyToClient(false, false, true, accepts);
      assert ops + [] == ops;
  }
}
