/** The per-invocation context a command handler receives: the key API over
    the keyspace, the Call/Reply bridge to nested commands, the reply channel,
    the replication propagator and the ownership of the resources the handler
    obtains. */
module Host {
  import opened ModuleApi
  import opened ModuleString
  import Store

  /** An argument vector: the command name followed by its arguments. */
  type Argv = seq<Bytes>

  /** An open key: the key's name and the mode it was opened with. */
  datatype KeyHandle = KeyHandle(name: Bytes, mode: bv32)

  /** A reply object returned by a nested call. */
  datatype CallReply =
    | CallString(bytes: Bytes)
    | CallError(message: Bytes)
    | CallInteger(n: int)
    | CallArray(elements: seq<CallReply>)
    | CallNull

  function CallReplyType(r: CallReply): (t: int)
    ensures t in ReplyTypes && t != REPLY_UNKNOWN
    ensures t == REPLY_ARRAY <==> r.CallArray?
    ensures t == REPLY_ERROR <==> r.CallError?
  {
    match r
    case CallString(_) => REPLY_STRING
    case CallError(_) => REPLY_ERROR
    case CallInteger(_) => REPLY_INTEGER
    case CallArray(_) => REPLY_ARRAY
    case CallNull => REPLY_NULL
  }

  /** Bytes of a string or error reply, elements of an array reply, otherwise 0. */
  function CallReplyLength(r: CallReply): nat
  {
    match r
    case CallString(b) => |b|
    case CallError(m) => |m|
    case CallArray(es) => |es|
    case _ => 0
  }

  /** An element of an array reply; nothing (NULL) for another reply or an index out of range. */
  function CallReplyArrayElement(r: CallReply, i: nat): (e: Option<CallReply>)
    ensures e.Some? <==> r.CallArray? && i < |r.elements|
    ensures e.Some? ==> e.value == r.elements[i]
  {
    if r.CallArray? && i < |r.elements| then Some(r.elements[i]) else None
  }

  /** What the host reports after running a nested command. */
  datatype Execution = Execution(reply: CallReply, space: Store.Keyspace, mutated: bool)

  /** The host's command implementations, reached through Call. */
  type Executor = (Store.Keyspace, Argv) -> Execution

  ghost predicate PreservesValid(exec: Executor) {
    forall ks: Store.Keyspace, argv: Argv {:trigger exec(ks, argv)} :: ks.Valid() ==> exec(ks, argv).space.Valid()
  }

  /** One reply call made by a handler; an array header is followed by its elements. */
  datatype Reply =
    | IntegerReply(n: int)
    | SimpleReply(status: string)
    | ErrorReply(message: string)
    | ArityReply
    | ArrayReply(len: int)

  /** The replies of one invocation form exactly one reply to the client: a
      single scalar, or an array header followed by as many scalars as it
      announces. */
  predicate SingleReply(rs: seq<Reply>) {
    && |rs| > 0
    && (forall i :: 0 < i < |rs| ==> !rs[i].ArrayReply?)
    && (if rs[0].ArrayReply? then rs[0].len == |rs| - 1 else |rs| == 1)
  }

  const MULTI: Argv := [Lit("MULTI")]
  const EXEC: Argv := [Lit("EXEC")]

  /** More than one propagated command travels inside MULTI/EXEC; a single one
      travels alone. */
  function Envelope(entries: seq<Argv>): (stream: seq<Argv>)
    ensures |entries| <= 1 ==> stream == entries
    ensures |entries| > 1 ==> |stream| == |entries| + 2
    ensures |entries| > 1 ==> stream[0] == MULTI && stream[|stream| - 1] == EXEC
    ensures |entries| > 1 ==> stream[1..|stream| - 1] == entries
  {
    if |entries| <= 1 then entries else [MULTI] + entries + [EXEC]
  }

  class Ctx {
    var space: Store.Keyspace
    const exec: Executor
    var replies: seq<Reply>
    /** Commands replicated by Call with the "!" modifier, in call order. */
    var callPropagated: seq<Argv>
    /** Commands queued by Replicate; they follow the Call entries. */
    var replicated: seq<Argv>
    var verbatim: bool
    var autoMemory: bool
    var openKeys: nat
    var openReplies: nat
    var openStrings: nat
    /** Buffers handed out by StringDMA, written back when their key is closed. */
    var dma: map<Bytes, array<byte>>

    ghost predicate Valid()
      reads this
    {
      space.Valid() && PreservesValid(exec)
    }

    /** The state in which the host dispatches a command. */
    predicate AtDispatch()
      reads this
    {
      && replies == [] && callPropagated == [] && replicated == []
      && !verbatim && !autoMemory
      && openKeys == 0 && openReplies == 0 && openStrings == 0 && dma == map[]
    }

    /** Nothing is left for the handler to release: either the context releases
        everything itself, or every key, reply and string has been freed. */
    predicate Released()
      reads this
    {
      autoMemory || (openKeys == 0 && openReplies == 0 && openStrings == 0 && dma == map[])
    }

    /** What the invocation sends to replicas and the append-only file. */
    function Propagation(original: Argv): (stream: seq<Argv>)
      reads this
      ensures verbatim ==> stream == [original]
      ensures !verbatim ==> (stream == [] <==> callPropagated + replicated == [])
    {
      if verbatim then [original] else Envelope(callPropagated + replicated)
    }

    constructor (space: Store.Keyspace, exec: Executor)
      requires space.Valid() && PreservesValid(exec)
      ensures Valid() && AtDispatch()
      ensures this.space == space && this.exec == exec
    {
      this.space := space;
      this.exec := exec;
      replies, callPropagated, replicated := [], [], [];
      verbatim, autoMemory := false, false;
      openKeys, openReplies, openStrings := 0, 0, 0;
      dma := map[];
    }

    method WrongArity() returns (status: int)
      modifies this`replies
      ensures status == OK && replies == old(replies) + [ArityReply]
    {
      replies := replies + [ArityReply];
      status := OK;
    }

    method ReplyWithLongLong(n: int) returns (status: int)
      modifies this`replies
      ensures status == OK && replies == old(replies) + [IntegerReply(n)]
    {
      replies := replies + [IntegerReply(n)];
      status := OK;
    }

    method ReplyWithError(message: string) returns (status: int)
      modifies this`replies
      ensures status == OK && replies == old(replies) + [ErrorReply(message)]
    {
      replies := replies + [ErrorReply(message)];
      status := OK;
    }

    method ReplyWithSimpleString(message: string) returns (status: int)
      modifies this`replies
      ensures status == OK && replies == old(replies) + [SimpleReply(message)]
    {
      replies := replies + [SimpleReply(message)];
      status := OK;
    }

    method ReplyWithArray(len: int) returns (status: int)
      modifies this`replies
      ensures status == OK && replies == old(replies) + [ArrayReply(len)]
    {
      replies := replies + [ArrayReply(len)];
      status := OK;
    }

    /** Opening never fails; a missing key reads as empty. */
    method OpenKey(name: Bytes, mode: bv32) returns (k: KeyHandle)
      modifies this`openKeys
      ensures k == KeyHandle(name, mode) && openKeys == old(openKeys) + 1
    {
      k := KeyHandle(name, mode);
      openKeys := openKeys + 1;
    }

    /** Closing a key writes back the DMA buffer handed out for it. */
    method CloseKey(k: KeyHandle)
      requires Valid() && openKeys > 0
      requires k.name in dma ==> Store.KeyType(space, k.name) == KEYTYPE_STRING
      modifies this`openKeys, this`space, this`dma
      ensures Valid()
      ensures openKeys == old(openKeys) - 1
      ensures k.name in old(dma) ==>
                dma == old(dma) - {k.name} && space == Store.WithString(old(space), k.name, old(dma)[k.name][..])
      ensures k.name !in old(dma) ==> dma == old(dma) && space == old(space)
    {
      if k.name in dma {
        space := Store.WithString(space, k.name, dma[k.name][..]);
        dma := dma - {k.name};
      }
      openKeys := openKeys - 1;
    }

    function KeyType(k: KeyHandle): int
      reads this
    {
      Store.KeyType(space, k.name)
    }

    function ValueLength(k: KeyHandle): nat
      reads this
    {
      Store.ValueLength(space, k.name)
    }

    /** ListPush fails with ERR, changing nothing, without write mode or on a non-list key. */
    method ListPush(k: KeyHandle, where: int, e: Bytes) returns (status: int)
      requires Valid()
      modifies this`space
      ensures Valid()
      ensures status == if k.mode & WRITE != 0 && Store.IsListOrEmpty(old(space), k.name) then OK else ERR
      ensures space == if status == OK then Store.ListPush(old(space), k.name, where, e) else old(space)
    {
      if k.mode & WRITE != 0 && Store.IsListOrEmpty(space, k.name) {
        Store.ListOpsValid(space, k.name, where, e);
        space := Store.ListPush(space, k.name, where, e);
        status := OK;
      } else {
        status := ERR;
      }
    }

    /** ListPop returns a new string the caller owns, or nothing (NULL). */
    method ListPop(k: KeyHandle, where: int) returns (e: Option<Bytes>)
      requires Valid()
      modifies this`space, this`openStrings
      ensures Valid()
      ensures k.mode & WRITE == 0 ==> e == None && space == old(space)
      ensures k.mode & WRITE != 0 ==> (space, e) == Store.ListPop(old(space), k.name, where)
      ensures openStrings == old(openStrings) + (if e.Some? then 1 else 0)
    {
      if k.mode & WRITE != 0 {
        Store.ListOpsValid(space, k.name, where, []);
        var r := Store.ListPop(space, k.name, where);
        space, e := r.0, r.1;
      } else {
        e := None;
      }
      if e.Some? {
        openStrings := openStrings + 1;
      }
    }

    /** Direct access to the bytes of a string key opened for writing. */
    method StringDMA(k: KeyHandle) returns (buf: array<byte>)
      requires Store.KeyType(space, k.name) == KEYTYPE_STRING && k.mode & WRITE != 0
      modifies this`dma
      ensures fresh(buf) && buf[..] == space.values[k.name].bytes
      ensures dma == old(dma)[k.name := buf]
    {
      var b := space.values[k.name].bytes;
      buf := new byte[|b|](i requires 0 <= i < |b| => b[i]);
      dma := dma[k.name := buf];
    }

    function GetExpire(k: KeyHandle): int
      reads this
    {
      Store.ExpireOf(space, k.name)
    }

    /** SetExpire fails with ERR without write mode or on an empty key. */
    method SetExpire(k: KeyHandle, ms: int) returns (status: int)
      requires Valid()
      modifies this`space
      ensures Valid()
      ensures status == if k.mode & WRITE != 0 && k.name in old(space).values then OK else ERR
      ensures space == if status == OK then Store.WithExpire(old(space), k.name, ms) else old(space)
    {
      if k.mode & WRITE != 0 && k.name in space.values {
        space := Store.WithExpire(space, k.name, ms);
        status := OK;
      } else {
        status := ERR;
      }
    }

    function StringToLongLong(s: Bytes): Option<int>
    {
      Parse(s)
    }

    method CreateStringFromLongLong(n: int) returns (s: Bytes)
      modifies this`openStrings
      ensures s == Format(n) && openStrings == old(openStrings) + 1
    {
      s := Format(n);
      openStrings := openStrings + 1;
    }

    method FreeString()
      requires openStrings > 0
      modifies this`openStrings
      ensures openStrings == old(openStrings) - 1
    {
      openStrings := openStrings - 1;
    }

    /** Runs a nested command to completion; with `replicate` (the "!"
        modifier) a command that changed the dataset is propagated. */
    method Call(argv: Argv, replicate: bool) returns (reply: CallReply)
      requires Valid()
      modifies this`space, this`callPropagated, this`openReplies
      ensures Valid()
      ensures var e := exec(old(space), argv);
        && reply == e.reply && space == e.space
        && callPropagated == old(callPropagated) + (if replicate && e.mutated then [argv] else [])
      ensures openReplies == old(openReplies) + 1
    {
      var e := exec(space, argv);
      reply, space := e.reply, e.space;
      if replicate && e.mutated {
        callPropagated := callPropagated + [argv];
      }
      openReplies := openReplies + 1;
    }

    method FreeCallReply()
      requires openReplies > 0
      modifies this`openReplies
      ensures openReplies == old(openReplies) - 1
    {
      openReplies := openReplies - 1;
    }

    method Replicate(argv: Argv) returns (status: int)
      modifies this`replicated
      ensures status == OK && replicated == old(replicated) + [argv]
    {
      replicated := replicated + [argv];
      status := OK;
    }

    /** From here on the invocation propagates as the client's own command. */
    method ReplicateVerbatim() returns (status: int)
      modifies this`verbatim, this`callPropagated, this`replicated
      ensures status == OK && verbatim && callPropagated == [] && replicated == []
    {
      verbatim := true;
      callPropagated, replicated := [], [];
      status := OK;
    }

    method AutoMemory()
      modifies this`autoMemory
      ensures autoMemory
    {
      autoMemory := true;
    }
  }
}
