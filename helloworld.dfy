/** The sample module "helloworld": its command handlers, written against the
    host context, each proved against a function of the keyspace it starts
    from, and its load entry point. */
module HelloWorld {
  import opened ModuleApi
  import opened ModuleString
  import Store
  import opened Host
  import Binder

  /** Every handler opens its keys for reading and writing. */
  const RW: bv32 := READ | WRITE

  /** What a handler leaves behind: the keyspace and its one reply. */
  datatype Outcome = Outcome(space: Store.Keyspace, reply: Reply)

  const ERRORMSG_INVALID_COUNT: string := "ERR invalid count"
  const ERRORMSG_INVALID_EXPIRE: string := "ERR invalid expire time"

  // ---------------------------------------------------------------------------
  // HELLO.PUSH.NATIVE key element

  /** RPUSH through the key API: the element goes to the tail of a list or
      empty key; another type is left alone, and the reply is the length of
      whatever the key holds afterwards. */
  method HelloPushNative(ctx: Ctx, argv: Argv) returns (status: int)
    requires ctx.Valid() && ctx.AtDispatch()
    modifies ctx
    ensures ctx.Valid() && status == OK
    ensures |argv| != 3 ==> ctx.space == old(ctx.space) && ctx.replies == [ArityReply]
    ensures |argv| == 3 ==>
      && ctx.space == Store.ListPush(old(ctx.space), argv[1], LIST_TAIL, argv[2])
      && ctx.replies == [IntegerReply(Store.ValueLength(ctx.space, argv[1]))]
    ensures !ctx.autoMemory && ctx.Released()
    ensures ctx.Propagation(argv) == []
  {
    if |argv| != 3 {
      status := ctx.WrongArity();
      return;
    }
    var key := ctx.OpenKey(argv[1], RW);
    var _ := ctx.ListPush(key, LIST_TAIL, argv[2]);
    var newlen := ctx.ValueLength(key);
    ctx.CloseKey(key);
    var _ := ctx.ReplyWithLongLong(newlen);
    status := OK;
  }

  /** On a list or empty key the element lands at the tail, the reply grows by
      one and no other key changes; on another type nothing changes. */
  lemma PushNativeAppends(ks: Store.Keyspace, k: Bytes, e: Bytes)
    requires ks.Valid()
    ensures var r := Store.ListPush(ks, k, LIST_TAIL, e);
      && r.Valid()
      && (Store.IsListOrEmpty(ks, k) ==>
            && Store.ListOf(r, k) == Store.ListOf(ks, k) + [e]
            && Store.ValueLength(r, k) == Store.ValueLength(ks, k) + 1
            && r.values - {k} == ks.values - {k} && r.ttls == ks.ttls)
      && (!Store.IsListOrEmpty(ks, k) ==> r == ks)
  {
    var r := Store.ListPush(ks, k, LIST_TAIL, e);
    if Store.IsListOrEmpty(ks, k) {
      Store.ListLength(ks, k);
      Store.ListLength(r, k);
      if k !in ks.values {
        assert k !in ks.ttls;
      }
    }
  }

  // ---------------------------------------------------------------------------
  // HELLO.LIST.SUM.LEN key

  const LRANGE: Bytes := Lit("LRANGE")

  /** The nested command: LRANGE key 0 -1, with both bounds formatted as long longs. */
  function LRangeArgv(k: Bytes): Argv
  {
    [LRANGE, k, Format(0), Format(-1)]
  }

  /** The length of element j of an array reply; a missing element counts 0. */
  function ElementLength(r: CallReply, j: nat): nat
  {
    match CallReplyArrayElement(r, j)
    case Some(e) => CallReplyLength(e)
    case None => 0
  }

  /** The lengths of the first n elements of a reply, added up. */
  function LengthSum(r: CallReply, n: nat): nat
  {
    if n == 0 then 0 else LengthSum(r, n - 1) + ElementLength(r, n - 1)
  }

  /** The total number of bytes in the elements of a list. */
  function TotalBytes(items: seq<Bytes>): nat
  {
    if items == [] then 0 else TotalBytes(items[..|items| - 1]) + |items[|items| - 1]|
  }

  /** The reply LRANGE key 0 -1 gives for a list: its elements, in order, as strings. */
  function LRangeReply(items: seq<Bytes>): (r: CallReply)
    ensures r.CallArray? && |r.elements| == |items|
    ensures forall j :: 0 <= j < |items| ==> r.elements[j] == CallString(items[j])
  {
    CallArray(seq(|items|, j requires 0 <= j < |items| => CallString(items[j])))
  }

  /** Walking an LRANGE reply adds up exactly the bytes of the list. */
  lemma {:induction false} LengthSumOfList(items: seq<Bytes>, n: nat)
    requires n <= |items|
    ensures LengthSum(LRangeReply(items), n) == TotalBytes(items[..n])
  {
    if n > 0 {
      LengthSumOfList(items, n - 1);
      assert items[..n][..n - 1] == items[..n - 1];
    }
  }

  /** The handler's loop over the elements of a reply, adding up their lengths. */
  method SumLengths(reply: CallReply) returns (strlen: nat)
    ensures strlen == LengthSum(reply, CallReplyLength(reply))
  {
    strlen := 0;
    var items := CallReplyLength(reply);
    for j := 0 to items
      invariant strlen == LengthSum(reply, j)
    {
      var ele := CallReplyArrayElement(reply, j);
      strlen := strlen + match ele case Some(e) => CallReplyLength(e) case None => 0;
    }
  }

  /** Sums the lengths of the elements of the reply LRANGE gives for the key. */
  method HelloListSumLen(ctx: Ctx, argv: Argv) returns (status: int)
    requires ctx.Valid() && ctx.AtDispatch()
    modifies ctx
    ensures ctx.Valid() && status == OK
    ensures |argv| != 2 ==> ctx.space == old(ctx.space) && ctx.replies == [ArityReply]
    ensures |argv| == 2 ==>
      var e := ctx.exec(old(ctx.space), LRangeArgv(argv[1]));
      && ctx.space == e.space
      && ctx.replies == [IntegerReply(LengthSum(e.reply, CallReplyLength(e.reply)))]
      && (e.reply == LRangeReply(Store.ListOf(old(ctx.space), argv[1])) ==>
            ctx.replies == [IntegerReply(TotalBytes(Store.ListOf(old(ctx.space), argv[1])))])
    ensures !ctx.autoMemory && ctx.Released()
    ensures ctx.Propagation(argv) == []
  {
    if |argv| != 2 {
      status := ctx.WrongArity();
      return;
    }
    var reply := ctx.Call(LRangeArgv(argv[1]), false);
    var strlen := SumLengths(reply);
    ghost var S := Store.ListOf(old(ctx.space), argv[1]);
    if reply == LRangeReply(S) {
      LengthSumOfList(S, |S|);
      assert S[..|S|] == S;
    }
    ctx.FreeCallReply();
    var _ := ctx.ReplyWithLongLong(strlen);
    status := OK;
  }

  // ---------------------------------------------------------------------------
  // HELLO.LIST.SPLICE srclist dstlist count, HELLO.LIST.SPLICE.AUTO

  /** One round of the splice loop: pop the tail of src and, when there was
      one, push it at the head of dst. */
  function SpliceStep(ks: Store.Keyspace, src: Bytes, dst: Bytes): Store.Keyspace
  {
    var popped := Store.ListPop(ks, src, LIST_TAIL);
    if popped.1.None? then ks else Store.ListPush(popped.0, dst, LIST_HEAD, popped.1.value)
  }

  /** The keyspace after n rounds; no rounds for a count that is not positive. */
  function Splice(ks: Store.Keyspace, src: Bytes, dst: Bytes, n: int): Store.Keyspace
    decreases n
  {
    if n <= 0 then ks else SpliceStep(Splice(ks, src, dst, n - 1), src, dst)
  }

  /** The number of elements a count moves out of a list of the given length. */
  function Moved(count: int, len: nat): (m: nat)
    ensures m <= len
  {
    if count <= 0 then 0 else if count < len then count else len
  }

  /** Both keys are checked before the count, and every error leaves the
      keyspace as it was; otherwise the reply is what is left of src. */
  function ListSplice(ks: Store.Keyspace, src: Bytes, dst: Bytes, countArg: Bytes): (o: Outcome)
    ensures !(Store.IsListOrEmpty(ks, src) && Store.IsListOrEmpty(ks, dst)) ==>
              o == Outcome(ks, ErrorReply(ERRORMSG_WRONGTYPE))
    ensures Store.IsListOrEmpty(ks, src) && Store.IsListOrEmpty(ks, dst) && Parse(countArg).None? ==>
              o == Outcome(ks, ErrorReply(ERRORMSG_INVALID_COUNT))
    ensures o.reply.ErrorReply? ==> o.space == ks
  {
    if !Store.IsListOrEmpty(ks, src) || !Store.IsListOrEmpty(ks, dst) then
      Outcome(ks, ErrorReply(ERRORMSG_WRONGTYPE))
    else match Parse(countArg)
      case None => Outcome(ks, ErrorReply(ERRORMSG_INVALID_COUNT))
      case Some(count) =>
        var r := Splice(ks, src, dst, count);
        Outcome(r, IntegerReply(Store.ValueLength(r, src)))
  }

  lemma SpliceNext(ks: Store.Keyspace, src: Bytes, dst: Bytes, i: nat)
    ensures Splice(ks, src, dst, i + 1) == SpliceStep(Splice(ks, src, dst, i), src, dst)
  {
  }

  /** Once src is empty, further rounds change nothing. */
  lemma {:induction false} SpliceStuck(ks: Store.Keyspace, src: Bytes, dst: Bytes, i: int, n: int)
    requires i <= n && Store.ListOf(Splice(ks, src, dst, i), src) == []
    ensures Splice(ks, src, dst, n) == Splice(ks, src, dst, i)
    decreases n - i
  {
    if i < n {
      SpliceStuck(ks, src, dst, i, n - 1);
    }
  }

  /** One round between two different lists, as a relation between the
      keyspaces before and after: the tail of src moves to the head of dst and
      no other key changes. */
  ghost predicate TailMoved(prev: Store.Keyspace, next: Store.Keyspace, src: Bytes, dst: Bytes)
    requires Store.ListOf(prev, src) != []
  {
    var A, B := Store.ListOf(prev, src), Store.ListOf(prev, dst);
    && Store.IsListOrEmpty(next, src) && Store.IsListOrEmpty(next, dst)
    && Store.ListOf(next, src) == A[..|A| - 1]
    && Store.ListOf(next, dst) == [A[|A| - 1]] + B
    && next.values - {src, dst} == prev.values - {src, dst}
    && next.ttls - {src, dst} == prev.ttls - {src, dst}
  }

  /** One round between two different lists takes the tail of src to the
      head of dst and changes no other key. */
  lemma SpliceStepDistinct(ks: Store.Keyspace, src: Bytes, dst: Bytes)
    requires src != dst
    requires Store.IsListOrEmpty(ks, src) && Store.IsListOrEmpty(ks, dst)
    requires Store.ListOf(ks, src) != []
    ensures TailMoved(ks, SpliceStep(ks, src, dst), src, dst)
  {
    var A, B := Store.ListOf(ks, src), Store.ListOf(ks, dst);
    var Y := Store.WithList(ks, src, A[..|A| - 1]);
    Store.WithListOther(ks, src, A[..|A| - 1], dst);
    var r := Store.WithList(Y, dst, [A[|A| - 1]] + B);
    assert SpliceStep(ks, src, dst) == r;
    Store.WithListOther(Y, dst, [A[|A| - 1]] + B, src);
    MinusBoth(r.values, Y.values, ks.values, src, dst);
    MinusBoth(r.ttls, Y.ttls, ks.ttls, src, dst);
  }

  /** Moving one more element from the tail of S to the head of the moved part. */
  lemma MoveOne(S: seq<Bytes>, D: seq<Bytes>, m: nat)
    requires m < |S|
    ensures var A := S[..|S| - m];
      && A != [] && A[..|A| - 1] == S[..|S| - (m + 1)]
      && [A[|A| - 1]] + (S[|S| - m..] + D) == S[|S| - (m + 1)..] + D
  {
    assert S[|S| - (m + 1)..] == [S[|S| - (m + 1)]] + S[|S| - m..];
  }

  /** After m rounds between two different lists: the last m elements of src,
      in their order, head dst, and no other key has changed. */
  ghost predicate MovedBetween(ks: Store.Keyspace, r: Store.Keyspace, src: Bytes, dst: Bytes, m: nat)
    requires m <= |Store.ListOf(ks, src)|
  {
    var S, D := Store.ListOf(ks, src), Store.ListOf(ks, dst);
    && Store.IsListOrEmpty(r, src) && Store.IsListOrEmpty(r, dst)
    && Store.ListOf(r, src) == S[..|S| - m]
    && Store.ListOf(r, dst) == S[|S| - m..] + D
    && r.values - {src, dst} == ks.values - {src, dst}
    && r.ttls - {src, dst} == ks.ttls - {src, dst}
  }

  /** One more round moves one more element while src is not empty. */
  lemma SpliceDistinctStep(ks: Store.Keyspace, prev: Store.Keyspace, next: Store.Keyspace,
                           src: Bytes, dst: Bytes, m: nat)
    requires src != dst && m < |Store.ListOf(ks, src)|
    requires MovedBetween(ks, prev, src, dst, m)
    requires Store.ListOf(prev, src) != [] && TailMoved(prev, next, src, dst)
    ensures MovedBetween(ks, next, src, dst, m + 1)
  {
    MoveOne(Store.ListOf(ks, src), Store.ListOf(ks, dst), m);
  }

  /** What one round does between two different lists: nothing on an empty
      src, otherwise its tail moves to the head of dst. */
  ghost predicate SpliceStepped(prev: Store.Keyspace, next: Store.Keyspace, src: Bytes, dst: Bytes) {
    if Store.ListOf(prev, src) == [] then next == prev else TailMoved(prev, next, src, dst)
  }

  lemma SpliceStepShape(ks: Store.Keyspace, src: Bytes, dst: Bytes)
    requires src != dst
    requires Store.IsListOrEmpty(ks, src) && Store.IsListOrEmpty(ks, dst)
    ensures SpliceStepped(ks, SpliceStep(ks, src, dst), src, dst)
  {
    if Store.ListOf(ks, src) != [] {
      SpliceStepDistinct(ks, src, dst);
    }
  }

  /** Between two different lists the splice moves min(max(count, 0), |src|)
      elements: the moved tail of src keeps its order at the head of dst, the
      reply is what is left of src, and no other key changes. */
  lemma {:induction false} SpliceDistinct(ks: Store.Keyspace, src: Bytes, dst: Bytes, n: int)
    requires src != dst
    requires Store.IsListOrEmpty(ks, src) && Store.IsListOrEmpty(ks, dst)
    ensures var S, D := Store.ListOf(ks, src), Store.ListOf(ks, dst);
      var m := Moved(n, |S|);
      var r := Splice(ks, src, dst, n);
      && Store.IsListOrEmpty(r, src) && Store.IsListOrEmpty(r, dst)
      && Store.ListOf(r, src) == S[..|S| - m]
      && Store.ListOf(r, dst) == S[|S| - m..] + D
      && Store.ValueLength(r, src) == |S| - m
      && r.values - {src, dst} == ks.values - {src, dst}
      && r.ttls - {src, dst} == ks.ttls - {src, dst}
  {
    SpliceMovedBetween(ks, src, dst, n);
    Store.ListLength(Splice(ks, src, dst, n), src);
  }

  lemma {:induction false} SpliceMovedBetween(ks: Store.Keyspace, src: Bytes, dst: Bytes, n: int)
    requires src != dst
    requires Store.IsListOrEmpty(ks, src) && Store.IsListOrEmpty(ks, dst)
    ensures MovedBetween(ks, Splice(ks, src, dst, n), src, dst, Moved(n, |Store.ListOf(ks, src)|))
    decreases n
  {
    if n <= 0 {
      MovedNone(ks, src, dst);
    } else {
      SpliceMovedBetween(ks, src, dst, n - 1);
      var prev := Splice(ks, src, dst, n - 1);
      SpliceStepShape(prev, src, dst);
      MovedAnother(ks, prev, Splice(ks, src, dst, n), src, dst, n);
    }
  }

  /** No rounds, nothing moved. */
  lemma MovedNone(ks: Store.Keyspace, src: Bytes, dst: Bytes)
    requires Store.IsListOrEmpty(ks, src) && Store.IsListOrEmpty(ks, dst)
    ensures MovedBetween(ks, ks, src, dst, 0)
  {
    var S, D := Store.ListOf(ks, src), Store.ListOf(ks, dst);
    assert S[..|S|] == S && S[|S|..] + D == D;
  }

  /** Round n moves one more element, or none once src is exhausted. */
  lemma MovedAnother(ks: Store.Keyspace, prev: Store.Keyspace, next: Store.Keyspace,
                     src: Bytes, dst: Bytes, n: int)
    requires src != dst && n > 0
    requires MovedBetween(ks, prev, src, dst, Moved(n - 1, |Store.ListOf(ks, src)|))
    requires SpliceStepped(prev, next, src, dst)
    ensures MovedBetween(ks, next, src, dst, Moved(n, |Store.ListOf(ks, src)|))
  {
    var L := |Store.ListOf(ks, src)|;
    var m := Moved(n - 1, L);
    if m < L {
      SpliceDistinctStep(ks, prev, next, src, dst, m);
      assert Moved(n, L) == m + 1;
    } else {
      assert Moved(n, L) == m;
    }
  }

  lemma MinusBoth<V>(r: map<Bytes, V>, mid: map<Bytes, V>, orig: map<Bytes, V>, s: Bytes, d: Bytes)
    requires r - {d} == mid - {d} && mid - {s} == orig - {s}
    ensures r - {s, d} == orig - {s, d}
  {
    assert r - {s, d} == (r - {d}) - {s};
    assert orig - {s, d} == (orig - {s}) - {d};
    assert (mid - {d}) - {s} == (mid - {s}) - {d};
  }

  /** The last element moved to the front, n times over. */
  function RotatedRight(s: seq<Bytes>, n: int): (r: seq<Bytes>)
    decreases n
  {
    if n <= 0 || s == [] then s
    else var t := RotatedRight(s, n - 1); if t == [] then t else [t[|t| - 1]] + t[..|t| - 1]
  }

  /** Rotating right n <= |s| times moves the last n elements to the front. */
  lemma {:induction false} RotatedRightSplit(s: seq<Bytes>, n: nat)
    requires n <= |s|
    ensures RotatedRight(s, n) == s[|s| - n..] + s[..|s| - n]
  {
    if n == 0 {
      assert s[|s|..] + s[..|s|] == s;
    } else {
      RotatedRightSplit(s, n - 1);
      RotateOnce(s, n - 1);
    }
  }

  /** Moving the last element of a split rotation to the front extends the split by one. */
  lemma RotateOnce(s: seq<Bytes>, p: nat)
    requires p < |s|
    ensures var t := s[|s| - p..] + s[..|s| - p];
      t != [] && [t[|t| - 1]] + t[..|t| - 1] == s[|s| - p - 1..] + s[..|s| - p - 1]
  {
    var t := s[|s| - p..] + s[..|s| - p];
    assert t[|t| - 1] == s[|s| - p - 1];
    assert t[..|t| - 1] == s[|s| - p..] + s[..|s| - p - 1];
  }

  /** |s| rotations bring a list back, so only count mod |s| matters. */
  lemma {:induction false} RotatedRightPeriod(s: seq<Bytes>, n: nat)
    ensures RotatedRight(s, n + |s|) == RotatedRight(s, n)
  {
    if n == 0 {
      RotatedRightSplit(s, |s|);
      assert s[0..] + s[..0] == s;
      if s != [] {
        RotatedRightSplit(s, 0);
        assert s[|s|..] + s[..|s|] == s;
      }
    } else {
      RotatedRightPeriod(s, n - 1);
    }
  }

  lemma {:induction false} RotatedRightLength(s: seq<Bytes>, n: int)
    ensures |RotatedRight(s, n)| == |s|
    decreases n
  {
    if n > 0 && s != [] {
      RotatedRightLength(s, n - 1);
    }
  }

  /** One round on a single list moves its tail element to its head. */
  lemma SpliceStepSelf(ks: Store.Keyspace, k: Bytes)
    requires Store.IsListOrEmpty(ks, k)
    ensures var L := Store.ListOf(ks, k);
      var r := SpliceStep(ks, k, k);
      && Store.IsListOrEmpty(r, k)
      && Store.ListOf(r, k) == (if L == [] then L else [L[|L| - 1]] + L[..|L| - 1])
      && r.values - {k} == ks.values - {k} && r.ttls - {k} == ks.ttls - {k}
  {
    var L := Store.ListOf(ks, k);
    if L != [] {
      var Y := Store.WithList(ks, k, L[..|L| - 1]);
      var r := Store.WithList(Y, k, [L[|L| - 1]] + L[..|L| - 1]);
      assert SpliceStep(ks, k, k) == r;
      Store.WithListFrame(ks, k, L[..|L| - 1]);
      Store.WithListFrame(Y, k, [L[|L| - 1]] + L[..|L| - 1]);
    }
  }

  /** Splicing a list onto itself rotates it: the tail element goes to the
      head once per round, and no other key changes. */
  lemma {:induction false} SpliceSelf(ks: Store.Keyspace, k: Bytes, n: int)
    requires Store.IsListOrEmpty(ks, k)
    ensures var r := Splice(ks, k, k, n);
      && Store.IsListOrEmpty(r, k)
      && Store.ListOf(r, k) == RotatedRight(Store.ListOf(ks, k), n)
      && r.values - {k} == ks.values - {k} && r.ttls - {k} == ks.ttls - {k}
    decreases n
  {
    if n > 0 {
      SpliceSelf(ks, k, n - 1);
      RotatedRightLength(Store.ListOf(ks, k), n - 1);
      SpliceStepSelf(Splice(ks, k, k, n - 1), k);
    }
  }

  /** The splice spelled out per element for the two cases of its keys. */
  lemma ListSpliceEffect(ks: Store.Keyspace, src: Bytes, dst: Bytes, countArg: Bytes)
    requires Store.IsListOrEmpty(ks, src) && Store.IsListOrEmpty(ks, dst) && Parse(countArg).Some?
    ensures var o := ListSplice(ks, src, dst, countArg);
      var n := Parse(countArg).value;
      var S := Store.ListOf(ks, src);
      var m := Moved(n, |S|);
      && (src != dst ==>
            && Store.ListOf(o.space, src) == S[..|S| - m]
            && Store.ListOf(o.space, dst) == S[|S| - m..] + Store.ListOf(ks, dst)
            && o.reply == IntegerReply(|S| - m))
      && (src == dst ==>
            && Store.ListOf(o.space, src) == RotatedRight(S, n)
            && o.reply == IntegerReply(|S|))
  {
    var n := Parse(countArg).value;
    if src != dst {
      SpliceDistinct(ks, src, dst, n);
    } else {
      SpliceSelf(ks, src, n);
      Store.ListLength(Splice(ks, src, dst, n), src);
      RotatedRightLength(Store.ListOf(ks, src), n);
    }
  }

  /** One pass of the splice loop's body, the (i + 1)-th of count; `moved` is
      false when src had no element to pop, and then nothing changed and no
      further round would change anything. */
  method SpliceRound(ctx: Ctx, srckey: KeyHandle, dstkey: KeyHandle, free: bool,
                     ghost ks: Store.Keyspace, ghost i: nat, ghost count: int) returns (moved: bool)
    requires ctx.Valid() && srckey.mode == RW && dstkey.mode == RW
    requires i < count && ctx.space == Splice(ks, srckey.name, dstkey.name, i)
    modifies ctx`space, ctx`openStrings
    ensures ctx.Valid()
    ensures moved ==> ctx.space == Splice(ks, srckey.name, dstkey.name, i + 1)
    ensures !moved ==> ctx.space == old(ctx.space) == Splice(ks, srckey.name, dstkey.name, count)
    ensures free || !moved ==> ctx.openStrings == old(ctx.openStrings)
  {
    var ele := ctx.ListPop(srckey, LIST_TAIL);
    if ele.None? {
      SpliceStuck(ks, srckey.name, dstkey.name, i, count);
      return false;
    }
    var _ := ctx.ListPush(dstkey, LIST_HEAD, ele.value);
    if free {
      ctx.FreeString();
    }
    SpliceNext(ks, srckey.name, dstkey.name, i);
    moved := true;
  }

  /** The loop both splice handlers run, while count-- > 0: pop the tail of
      src, stop if there was none, push it at the head of dst, and free it
      when the handler manages its memory by hand. */
  method SpliceLoop(ctx: Ctx, srckey: KeyHandle, dstkey: KeyHandle, count: int, free: bool)
    requires ctx.Valid() && srckey.mode == RW && dstkey.mode == RW
    modifies ctx`space, ctx`openStrings
    ensures ctx.Valid()
    ensures ctx.space == Splice(old(ctx.space), srckey.name, dstkey.name, count)
    ensures free ==> ctx.openStrings == old(ctx.openStrings)
  {
    ghost var ks := ctx.space;
    ghost var i: nat := 0;
    var left := count;
    while left > 0
      invariant ctx.Valid()
      invariant left == count - i && (left < 0 ==> i == 0)
      invariant ctx.space == Splice(ks, srckey.name, dstkey.name, i)
      invariant free ==> ctx.openStrings == old(ctx.openStrings)
    {
      left := left - 1;
      var moved := SpliceRound(ctx, srckey, dstkey, free, ks, i, count);
      if !moved {
        return;
      }
      i := i + 1;
    }
    assert Splice(ks, srckey.name, dstkey.name, i) == Splice(ks, srckey.name, dstkey.name, count);
  }

  /** Moves up to count elements from the tail of srclist to the head of
      dstlist, freeing every popped string and closing both keys. */
  method HelloListSplice(ctx: Ctx, argv: Argv) returns (status: int)
    requires ctx.Valid() && ctx.AtDispatch()
    modifies ctx
    ensures ctx.Valid() && status == OK
    ensures |argv| != 4 ==> ctx.space == old(ctx.space) && ctx.replies == [ArityReply]
    ensures |argv| == 4 ==>
      var o := ListSplice(old(ctx.space), argv[1], argv[2], argv[3]);
      ctx.space == o.space && ctx.replies == [o.reply]
    ensures !ctx.autoMemory && ctx.Released()
    ensures ctx.Propagation(argv) == []
  {
    if |argv| != 4 {
      status := ctx.WrongArity();
      return;
    }
    var srckey := ctx.OpenKey(argv[1], RW);
    var dstkey := ctx.OpenKey(argv[2], RW);
    if (ctx.KeyType(srckey) != KEYTYPE_LIST && ctx.KeyType(srckey) != KEYTYPE_EMPTY)
      || (ctx.KeyType(dstkey) != KEYTYPE_LIST && ctx.KeyType(dstkey) != KEYTYPE_EMPTY)
    {
      ctx.CloseKey(srckey);
      ctx.CloseKey(dstkey);
      status := ctx.ReplyWithError(ERRORMSG_WRONGTYPE);
      return;
    }
    var parsed := ctx.StringToLongLong(argv[3]);
    if parsed.None? {
      ctx.CloseKey(srckey);
      ctx.CloseKey(dstkey);
      status := ctx.ReplyWithError(ERRORMSG_INVALID_COUNT);
      return;
    }
    SpliceLoop(ctx, srckey, dstkey, parsed.value, true);
    assert ctx.dma == map[];
    var len := ctx.ValueLength(srckey);
    ctx.CloseKey(srckey);
    ctx.CloseKey(dstkey);
    var _ := ctx.ReplyWithLongLong(len);
    status := OK;
  }

  /** The same splice with automatic memory management: nothing is closed or
      freed by hand. */
  method HelloListSpliceAuto(ctx: Ctx, argv: Argv) returns (status: int)
    requires ctx.Valid() && ctx.AtDispatch()
    modifies ctx
    ensures ctx.Valid() && status == OK
    ensures |argv| != 4 ==> ctx.space == old(ctx.space) && ctx.replies == [ArityReply] && !ctx.autoMemory
    ensures |argv| == 4 ==>
      var o := ListSplice(old(ctx.space), argv[1], argv[2], argv[3]);
      ctx.space == o.space && ctx.replies == [o.reply] && ctx.autoMemory
    ensures ctx.Released()
    ensures ctx.Propagation(argv) == []
  {
    if |argv| != 4 {
      status := ctx.WrongArity();
      return;
    }
    ctx.AutoMemory();
    var srckey := ctx.OpenKey(argv[1], RW);
    var dstkey := ctx.OpenKey(argv[2], RW);
    if (ctx.KeyType(srckey) != KEYTYPE_LIST && ctx.KeyType(srckey) != KEYTYPE_EMPTY)
      || (ctx.KeyType(dstkey) != KEYTYPE_LIST && ctx.KeyType(dstkey) != KEYTYPE_EMPTY)
    {
      status := ctx.ReplyWithError(ERRORMSG_WRONGTYPE);
      return;
    }
    var parsed := ctx.StringToLongLong(argv[3]);
    if parsed.None? {
      status := ctx.ReplyWithError(ERRORMSG_INVALID_COUNT);
      return;
    }
    SpliceLoop(ctx, srckey, dstkey, parsed.value, false);
    var len := ctx.ValueLength(srckey);
    var _ := ctx.ReplyWithLongLong(len);
    status := OK;
  }

  // ---------------------------------------------------------------------------
  // HELLO.RAND.ARRAY count

  /** The integer replies of count calls to rand(); rand(j) stands for what
      the j-th call returns. */
  function RandomReplies(count: nat, rand: nat -> int): (rs: seq<Reply>)
    ensures |rs| == count
    ensures forall j :: 0 <= j < count ==> rs[j] == IntegerReply(rand(j))
  {
    seq(count, j requires 0 <= j < count => IntegerReply(rand(j)))
  }

  lemma RandomRepliesNext(n: nat, rand: nat -> int)
    ensures RandomReplies(n + 1, rand) == RandomReplies(n, rand) + [IntegerReply(rand(n))]
  {
  }

  /** The replies as the handler is written: ReplyWithArray takes a C int, so
      the header announces count converted to int. */
  function RandArrayAsWritten(argv: Argv, rand: nat -> int): seq<Reply>
  {
    if |argv| != 2 then [ArityReply]
    else match Parse(argv[1])
      case None => [ErrorReply(ERRORMSG_INVALID_COUNT)]
      case Some(count) =>
        if count < 0 then [ErrorReply(ERRORMSG_INVALID_COUNT)]
        else [ArrayReply(Int32Of(count))] + RandomReplies(count, rand)
  }

  /** The replies with the header announcing count itself: a wrong arity, an
      invalid or negative count is an error, otherwise an array of exactly
      count integers, so count 0 is the empty array. */
  function RandArray(argv: Argv, rand: nat -> int): (rs: seq<Reply>)
    ensures SingleReply(rs)
    ensures |argv| != 2 ==> rs == [ArityReply]
    ensures |argv| == 2 && (Parse(argv[1]).None? || Parse(argv[1]).value < 0) ==>
              rs == [ErrorReply(ERRORMSG_INVALID_COUNT)]
    ensures |argv| == 2 && Parse(argv[1]).Some? && Parse(argv[1]).value >= 0 ==>
              var n := Parse(argv[1]).value;
              && |rs| == n + 1 && rs[0] == ArrayReply(n)
              && forall j :: 0 <= j < n ==> rs[j + 1] == IntegerReply(rand(j))
  {
    if |argv| != 2 then [ArityReply]
    else match Parse(argv[1])
      case None => [ErrorReply(ERRORMSG_INVALID_COUNT)]
      case Some(count) =>
        if count < 0 then [ErrorReply(ERRORMSG_INVALID_COUNT)]
        else [ArrayReply(count)] + RandomReplies(count, rand)
  }

  /** Below 2^31 the two agree. */
  lemma RandArrayAgrees(argv: Argv, rand: nat -> int)
    requires |argv| == 2 && Parse(argv[1]).Some? && Parse(argv[1]).value < -MinInt32
    ensures RandArrayAsWritten(argv, rand) == RandArray(argv, rand)
  {
  }

  /** A count of 2^32 gets a header announcing 0 followed by 2^32 integers:
      not one well-formed reply. */
  lemma RandArrayHeaderTruncated(rand: nat -> int)
    ensures var argv := [Lit("hello.rand.array"), Format(Two32)];
      && RandArrayAsWritten(argv, rand)[0] == ArrayReply(0)
      && |RandArrayAsWritten(argv, rand)| == Two32 + 1
      && !SingleReply(RandArrayAsWritten(argv, rand))
      && RandArray(argv, rand)[0] == ArrayReply(Two32)
  {
    ParseFormat(Two32);
    Int32OfTwo32();
  }

  /** count 0 is the empty array. */
  lemma RandArrayZero(rand: nat -> int)
    ensures RandArray([Lit("hello.rand.array"), Format(0)], rand) == [ArrayReply(0)]
  {
    ParseFormat(0);
  }

  /** while (count--) ReplyWithLongLong(rand()). */
  method ReplyRandoms(ctx: Ctx, count: nat, rand: nat -> int)
    modifies ctx`replies
    ensures ctx.replies == old(ctx.replies) + RandomReplies(count, rand)
  {
    var left := count;
    while left > 0
      invariant 0 <= left <= count
      invariant ctx.replies == old(ctx.replies) + RandomReplies(count - left, rand)
    {
      RandomRepliesNext(count - left, rand);
      var _ := ctx.ReplyWithLongLong(rand(count - left));
      left := left - 1;
    }
  }

  /** The handler as written, passing the long long count to ReplyWithArray's int. */
  method HelloRandArrayAsWritten(ctx: Ctx, argv: Argv, rand: nat -> int) returns (status: int)
    requires ctx.AtDispatch()
    modifies ctx`replies
    ensures status == OK && ctx.replies == RandArrayAsWritten(argv, rand)
  {
    if |argv| != 2 {
      status := ctx.WrongArity();
      return;
    }
    var parsed := ctx.StringToLongLong(argv[1]);
    if parsed.None? || parsed.value < 0 {
      status := ctx.ReplyWithError(ERRORMSG_INVALID_COUNT);
      return;
    }
    var _ := ctx.ReplyWithArray(Int32Of(parsed.value));
    ReplyRandoms(ctx, parsed.value, rand);
    status := OK;
  }

  /** The handler with the header carrying the whole count. */
  method HelloRandArray(ctx: Ctx, argv: Argv, rand: nat -> int) returns (status: int)
    requires ctx.AtDispatch()
    modifies ctx`replies
    ensures status == OK && ctx.replies == RandArray(argv, rand)
    ensures ctx.Released() && ctx.Propagation(argv) == []
  {
    if |argv| != 2 {
      status := ctx.WrongArity();
      return;
    }
    var parsed := ctx.StringToLongLong(argv[1]);
    if parsed.None? || parsed.value < 0 {
      status := ctx.ReplyWithError(ERRORMSG_INVALID_COUNT);
      return;
    }
    var _ := ctx.ReplyWithArray(parsed.value);
    ReplyRandoms(ctx, parsed.value, rand);
    status := OK;
  }

  // ---------------------------------------------------------------------------
  // HELLO.REPL1

  const ECHO: Bytes := Lit("ECHO")
  const INCR: Bytes := Lit("INCR")
  const FOO: Bytes := Lit("foo")
  const BAR: Bytes := Lit("bar")

  /** What HELLO.REPL1 propagates, given whether each INCR changed the
      dataset: the INCRs that did, in call order, then the ECHO, wrapped in
      MULTI/EXEC once there is more than one command. */
  function Repl1Stream(fooMutated: bool, barMutated: bool): (stream: seq<Argv>)
    ensures fooMutated && barMutated ==> stream == [MULTI, [INCR, FOO], [INCR, BAR], [ECHO, FOO], EXEC]
    ensures fooMutated && !barMutated ==> stream == [MULTI, [INCR, FOO], [ECHO, FOO], EXEC]
    ensures !fooMutated && barMutated ==> stream == [MULTI, [INCR, BAR], [ECHO, FOO], EXEC]
    ensures !fooMutated && !barMutated ==> stream == [[ECHO, FOO]]
  {
    Envelope((if fooMutated then [[INCR, FOO]] else []) +
             (if barMutated then [[INCR, BAR]] else []) + [[ECHO, FOO]])
  }

  /** Queues ECHO foo for replication, then runs INCR foo and INCR bar with
      the "!" modifier; the calls that changed the dataset are propagated
      before the ECHO. */
  method HelloRepl1(ctx: Ctx, argv: Argv) returns (status: int)
    requires ctx.Valid() && ctx.AtDispatch()
    modifies ctx
    ensures ctx.Valid() && status == OK
    ensures var e1 := ctx.exec(old(ctx.space), [INCR, FOO]);
      var e2 := ctx.exec(e1.space, [INCR, BAR]);
      && ctx.space == e2.space
      && ctx.replies == [IntegerReply(0)]
      && ctx.Propagation(argv) == Repl1Stream(e1.mutated, e2.mutated)
    ensures ctx.autoMemory && ctx.Released()
  {
    ctx.AutoMemory();
    var _ := ctx.Replicate([ECHO, FOO]);
    ghost var e1 := ctx.exec(ctx.space, [INCR, FOO]);
    var _ := ctx.Call([INCR, FOO], true);
    ghost var e2 := ctx.exec(ctx.space, [INCR, BAR]);
    var _ := ctx.Call([INCR, BAR], true);
    var _ := ctx.ReplyWithLongLong(0);
    assert ctx.replicated == [[ECHO, FOO]];
    assert ctx.callPropagated == (if e1.mutated then [[INCR, FOO]] else []) +
                                 (if e2.mutated then [[INCR, BAR]] else []);
    status := OK;
  }

  // ---------------------------------------------------------------------------
  // HELLO.REPL2 key

  /** What an element counts as: its value when it parses, 0 otherwise. */
  function ValueOr0(e: Bytes): int
  {
    match Parse(e)
    case Some(v) => v
    case None => 0
  }

  /** val++ on the long long an element counts as. */
  function Bumped(e: Bytes): (v: int)
    ensures InInt64(v)
  {
    Wrap64(ValueOr0(e) + 1)
  }

  /** The element a round pushes for the popped element e: the decimal form
      of its successor. */
  function NewElement(e: Bytes): Bytes
  {
    Format(Bumped(e))
  }

  /** Every element replaced, in place, by f of it. */
  function MapAll(f: Bytes -> Bytes, items: seq<Bytes>): (r: seq<Bytes>)
    ensures |r| == |items|
  {
    if items == [] then [] else [f(items[0])] + MapAll(f, items[1..])
  }

  /** Each element of MapAll is f of the element in the same place. */
  lemma {:induction false} MapAllAt(f: Bytes -> Bytes, items: seq<Bytes>, j: nat)
    requires j < |items|
    ensures MapAll(f, items)[j] == f(items[j])
  {
    if j > 0 {
      MapAllAt(f, items[1..], j - 1);
    }
  }

  /** The sum of the successors, before wrap-around. */
  function BumpTotal(items: seq<Bytes>): int
  {
    if items == [] then 0 else Bumped(items[0]) + BumpTotal(items[1..])
  }

  /** The sum of what the elements count as. */
  function ValuesSum(items: seq<Bytes>): int
  {
    if items == [] then 0 else ValueOr0(items[0]) + ValuesSum(items[1..])
  }

  /** One round of the loop, with f the rewrite of the popped element: pop
      the tail, push f of it at the head. */
  function RotateStep(ks: Store.Keyspace, k: Bytes, f: Bytes -> Bytes): Store.Keyspace
  {
    var popped := Store.ListPop(ks, k, LIST_TAIL);
    if popped.1.None? then ks
    else Store.ListPush(popped.0, k, LIST_HEAD, f(popped.1.value))
  }

  /** The keyspace after n rounds. */
  function RotateRounds(ks: Store.Keyspace, k: Bytes, f: Bytes -> Bytes, n: nat): Store.Keyspace
  {
    if n == 0 then ks else RotateStep(RotateRounds(ks, k, f, n - 1), k, f)
  }

  /** What a round on the list L adds to the sum: the successor of its tail. */
  function TailBumped(L: seq<Bytes>): int
  {
    if L == [] then 0 else Bumped(L[|L| - 1])
  }

  /** The running sum after the first n rounds, wrapped at every addition. */
  function WrappedSum(S: seq<Bytes>, n: nat): (sum: int)
    requires n <= |S|
    ensures InInt64(sum)
  {
    if n == 0 then 0 else Wrap64(WrappedSum(S, n - 1) + Bumped(S[|S| - n]))
  }

  /** A list key gets as many rounds as it has elements and the reply is the
      sum of the successors as a long long; any other key, empty included, is
      a type error that changes nothing. */
  function Repl2(ks: Store.Keyspace, k: Bytes): (o: Outcome)
    ensures Store.KeyType(ks, k) != KEYTYPE_LIST <==> o == Outcome(ks, ErrorReply(ERRORMSG_WRONGTYPE))
    ensures o.reply.IntegerReply? ==> InInt64(o.reply.n)
  {
    if Store.KeyType(ks, k) != KEYTYPE_LIST then Outcome(ks, ErrorReply(ERRORMSG_WRONGTYPE))
    else
      var S := Store.ListOf(ks, k);
      Outcome(RotateRounds(ks, k, NewElement, |S|), IntegerReply(Wrap64(BumpTotal(S))))
  }

  /** After i rounds: the last i elements of S have moved, rewritten, to the
      front; nothing else has changed, except that a one-element list lost its
      expire when its only element was popped. */
  ghost predicate RotatedBy(ks: Store.Keyspace, r: Store.Keyspace, k: Bytes, f: Bytes -> Bytes, i: nat)
    requires i <= |Store.ListOf(ks, k)|
  {
    var S := Store.ListOf(ks, k);
    && Store.IsListOrEmpty(r, k)
    && Store.ListOf(r, k) == MapAll(f, S[|S| - i..]) + S[..|S| - i]
    && r.values - {k} == ks.values - {k}
    && (i == 0 || |S| > 1 ==> r.ttls == ks.ttls)
    && (i > 0 && |S| == 1 ==> r.ttls == ks.ttls - {k})
  }

  /** The element round i pops: the i-th from the tail, counting from 0. */
  function Popped(S: seq<Bytes>, i: nat): Bytes
    requires i < |S|
  {
    S[|S| - (i + 1)]
  }

  /** The list L after i rounds, one round further (j = i + 1), as
      sequences: its last element is the one round i pops. */
  lemma RotateOne(f: Bytes -> Bytes, S: seq<Bytes>, i: nat, j: nat, L: seq<Bytes>)
    requires j == i + 1 <= |S| && L == MapAll(f, S[|S| - i..]) + S[..|S| - i]
    ensures L != [] && L[|L| - 1] == Popped(S, i)
    ensures [f(L[|L| - 1])] + L[..|L| - 1] == MapAll(f, S[|S| - j..]) + S[..|S| - j]
  {
    var T := S[|S| - j..];
    assert T[1..] == S[|S| - i..];
    assert MapAll(f, T) == [f(T[0])] + MapAll(f, T[1..]);
    assert S[..|S| - i][..|S| - i - 1] == S[..|S| - j];
    ConsLast(f(T[0]), MapAll(f, S[|S| - i..]), S[..|S| - i]);
  }

  /** Dropping the last element of B + P, P not empty, and putting x in front. */
  lemma ConsLast<T>(x: T, B: seq<T>, P: seq<T>)
    requires P != []
    ensures var L := B + P;
      && L != [] && L[|L| - 1] == P[|P| - 1] && L[..|L| - 1] == B + P[..|P| - 1]
      && [x] + L[..|L| - 1] == ([x] + B) + P[..|P| - 1]
  {
    var L := B + P;
    assert L[..|L| - 1] == B + P[..|P| - 1];
  }

  /** What one round does: nothing when the key holds no elements; otherwise
      the rewritten tail becomes the head, and the key loses its expire
      exactly when the pop emptied it. */
  ghost predicate Stepped(prev: Store.Keyspace, next: Store.Keyspace, k: Bytes, f: Bytes -> Bytes) {
    var L := Store.ListOf(prev, k);
    if L == [] then next == prev
    else
      && Store.IsListOrEmpty(next, k)
      && Store.ListOf(next, k) == [f(L[|L| - 1])] + L[..|L| - 1]
      && next.values - {k} == prev.values - {k}
      && (|L| > 1 ==> next.ttls == prev.ttls)
      && (|L| == 1 ==> next.ttls == prev.ttls - {k})
  }

  lemma RotateStepShape(prev: Store.Keyspace, k: Bytes, f: Bytes -> Bytes)
    ensures Stepped(prev, RotateStep(prev, k, f), k, f)
  {
    var L := Store.ListOf(prev, k);
    if L != [] {
      var Y := Store.WithList(prev, k, L[..|L| - 1]);
      var x := f(L[|L| - 1]);
      var r := Store.WithList(Y, k, [x] + L[..|L| - 1]);
      assert RotateStep(prev, k, f) == r;
      Store.WithListFrame(prev, k, L[..|L| - 1]);
      Store.WithListFrame(Y, k, [x] + L[..|L| - 1]);
    }
  }

  /** One round keeps the shape of RotatedBy, one step further (j = i + 1). */
  lemma RotatedByStep(ks: Store.Keyspace, prev: Store.Keyspace, next: Store.Keyspace, k: Bytes, f: Bytes -> Bytes, i: nat, j: nat)
    requires j == i + 1 <= |Store.ListOf(ks, k)| && RotatedBy(ks, prev, k, f, i)
    requires Stepped(prev, next, k, f)
    ensures RotatedBy(ks, next, k, f, j)
  {
    var S, L := Store.ListOf(ks, k), Store.ListOf(prev, k);
    RotateOne(f, S, i, j, L);
    assert next.values - {k} == ks.values - {k};
  }

  lemma RotatedByNone(ks: Store.Keyspace, k: Bytes, f: Bytes -> Bytes)
    requires Store.IsListOrEmpty(ks, k)
    ensures RotatedBy(ks, ks, k, f, 0)
  {
    var S := Store.ListOf(ks, k);
    assert S[|S|..] == [] && S[..|S|] == S;
    assert MapAll(f, []) == [];
  }

  lemma {:induction false} RotateRoundsShape(ks: Store.Keyspace, k: Bytes, f: Bytes -> Bytes, n: nat)
    requires Store.IsListOrEmpty(ks, k) && n <= |Store.ListOf(ks, k)|
    ensures RotatedBy(ks, RotateRounds(ks, k, f, n), k, f, n)
  {
    if n == 0 {
      RotatedByNone(ks, k, f);
    } else {
      RotateRoundsShape(ks, k, f, n - 1);
      var prev := RotateRounds(ks, k, f, n - 1);
      RotateStepShape(prev, k, f);
      RotatedByStep(ks, prev, RotateRounds(ks, k, f, n), k, f, n - 1, n);
    }
  }

  /** The list after n rounds: the last n elements of S, rewritten, in front of the others. */
  lemma {:induction false} RotateRoundsList(ks: Store.Keyspace, k: Bytes, f: Bytes -> Bytes, n: nat)
    requires Store.IsListOrEmpty(ks, k) && n <= |Store.ListOf(ks, k)|
    ensures var S := Store.ListOf(ks, k);
      && Store.IsListOrEmpty(RotateRounds(ks, k, f, n), k)
      && Store.ListOf(RotateRounds(ks, k, f, n), k) == MapAll(f, S[|S| - n..]) + S[..|S| - n]
  {
    var S := Store.ListOf(ks, k);
    if n == 0 {
      assert S[|S|..] == [] && S[..|S|] == S;
      assert MapAll(f, []) == [];
    } else {
      RotateRoundsList(ks, k, f, n - 1);
      var prev := RotateRounds(ks, k, f, n - 1);
      RotateStepShape(prev, k, f);
      RotateOne(f, S, n - 1, n, Store.ListOf(prev, k));
    }
  }

  /** Round i pops the i-th element of S from the tail, counting from 0. */
  lemma RotateRoundsTail(ks: Store.Keyspace, k: Bytes, f: Bytes -> Bytes, i: nat)
    requires Store.IsListOrEmpty(ks, k) && i < |Store.ListOf(ks, k)|
    ensures var L := Store.ListOf(RotateRounds(ks, k, f, i), k);
      L != [] && L[|L| - 1] == Popped(Store.ListOf(ks, k), i)
  {
    var S := Store.ListOf(ks, k);
    RotateRoundsList(ks, k, f, i);
    var P := S[..|S| - i];
    ConsLast(f(S[0]), MapAll(f, S[|S| - i..]), P);
  }

  /** What round i adds to the sum is the successor of the element it pops. */
  lemma {:induction false} Repl2Tail(ks: Store.Keyspace, k: Bytes, i: nat)
    requires Store.IsListOrEmpty(ks, k) && i < |Store.ListOf(ks, k)|
    ensures TailBumped(Store.ListOf(RotateRounds(ks, k, NewElement, i), k)) == Bumped(Popped(Store.ListOf(ks, k), i))
  {
    RotateRoundsTail(ks, k, NewElement, i);
  }

  /** After all rounds every element has been rewritten in place. */
  lemma {:induction false} RotateFinal(ks: Store.Keyspace, k: Bytes, f: Bytes -> Bytes)
    requires Store.IsListOrEmpty(ks, k)
    ensures var S := Store.ListOf(ks, k);
      var r := RotateRounds(ks, k, f, |S|);
      && Store.IsListOrEmpty(r, k)
      && Store.ListOf(r, k) == MapAll(f, S)
      && r.values - {k} == ks.values - {k}
      && (|S| != 1 ==> r.ttls == ks.ttls)
      && (|S| == 1 ==> r.ttls == ks.ttls - {k})
  {
    var S := Store.ListOf(ks, k);
    RotateRoundsShape(ks, k, f, |S|);
    assert S[|S| - |S|..] == S && S[..0] == [];
  }

  /** One more round adds v, the successor of the element it pops, to the
      running sum acc. */
  lemma WrappedSumStep(S: seq<Bytes>, j: nat, acc: int, v: int)
    requires j < |S| && acc == WrappedSum(S, j) && v == Bumped(Popped(S, j))
    ensures WrappedSum(S, j + 1) == Wrap64(acc + v)
  {
  }

  /** Wrapping at every addition gives the wrapped total. */
  lemma {:induction false} WrappedSumTotal(S: seq<Bytes>, n: nat)
    requires n <= |S|
    ensures WrappedSum(S, n) == Wrap64(BumpTotal(S[|S| - n..]))
  {
    if n > 0 {
      WrappedSumTotal(S, n - 1);
      assert S[|S| - n..][1..] == S[|S| - (n - 1)..];
      WrapAdd(BumpTotal(S[|S| - (n - 1)..]), Bumped(S[|S| - n]));
    }
  }

  /** The loop's sum after every round is the wrapped total of the successors. */
  lemma Repl2SumTotal(ks: Store.Keyspace, k: Bytes)
    requires Store.IsListOrEmpty(ks, k)
    ensures var S := Store.ListOf(ks, k); WrappedSum(S, |S|) == Wrap64(BumpTotal(S))
  {
    var S := Store.ListOf(ks, k);
    WrappedSumTotal(S, |S|);
    assert S[|S| - |S|..] == S;
  }

  /** The successors' decimal forms parse back, so the sum of what the new
      elements count as is the sum of the successors. */
  lemma {:induction false} BumpTotalValues(S: seq<Bytes>)
    ensures ValuesSum(MapAll(NewElement, S)) == BumpTotal(S)
  {
    if S != [] {
      BumpTotalValues(S[1..]);
      ParseFormat(Bumped(S[0]));
      assert MapAll(NewElement, S)[1..] == MapAll(NewElement, S[1..]);
    }
  }

  /** Each new element parses as the successor of the old one. */
  lemma {:induction false} NewElementsParse(S: seq<Bytes>)
    ensures forall j :: 0 <= j < |S| ==> Parse(MapAll(NewElement, S)[j]) == Some(Bumped(S[j]))
  {
    forall j | 0 <= j < |S| ensures Parse(MapAll(NewElement, S)[j]) == Some(Bumped(S[j])) {
      MapAllAt(NewElement, S, j);
      ParseFormat(Bumped(S[j]));
    }
  }

  /** On a list the length and order are kept, each element is replaced in
      place by its successor, the reply is the sum of the new elements as a
      long long, other keys are untouched, and the expire survives unless the
      list had a single element. */
  lemma Repl2Effect(ks: Store.Keyspace, k: Bytes)
    requires Store.KeyType(ks, k) == KEYTYPE_LIST
    ensures var o := Repl2(ks, k);
      var S := Store.ListOf(ks, k);
      var L := Store.ListOf(o.space, k);
      && Store.IsListOrEmpty(o.space, k)
      && |L| == |S|
      && (forall j :: 0 <= j < |S| ==> Parse(L[j]) == Some(Bumped(S[j])))
      && o.reply == IntegerReply(Wrap64(ValuesSum(L)))
      && o.space.values - {k} == ks.values - {k}
      && (|S| != 1 ==> o.space.ttls == ks.ttls)
      && (|S| == 1 ==> o.space.ttls == ks.ttls - {k})
  {
    var S := Store.ListOf(ks, k);
    RotateFinal(ks, k, NewElement);
    BumpTotalValues(S);
    NewElementsParse(S);
  }

  /** One pass of the handler's loop on a list that is not empty: pop the
      tail, parse it (0 when it does not parse), increment, and push the new
      value's string at the head. This is one RotateStep, the list keeps its
      length, and the value is the successor of the popped tail. */
  method Repl2Round(ctx: Ctx, key: KeyHandle) returns (val: int)
    requires ctx.Valid() && key.mode == RW
    requires Store.IsListOrEmpty(ctx.space, key.name) && Store.ListOf(ctx.space, key.name) != []
    modifies ctx`space, ctx`openStrings
    ensures ctx.Valid() && ctx.space == RotateStep(old(ctx.space), key.name, NewElement)
    ensures Store.IsListOrEmpty(ctx.space, key.name)
    ensures |Store.ListOf(ctx.space, key.name)| == |Store.ListOf(old(ctx.space), key.name)|
    ensures val == TailBumped(Store.ListOf(old(ctx.space), key.name))
  {
    var ele := ctx.ListPop(key, LIST_TAIL);
    var parsed := ctx.StringToLongLong(ele.value);
    val := match parsed case Some(v) => v case None => 0;
    val := Wrap64(val + 1);
    var newele := ctx.CreateStringFromLongLong(val);
    var _ := ctx.ListPush(key, LIST_HEAD, newele);
  }

  /** Where the loop stands after i of the rounds on the list S at k in ks:
      the keyspace is the one after i rounds, with a list as long as S, and
      the running sum is the wrapped sum of the first i successors. */
  ghost predicate Repl2Progress(ks: Store.Keyspace, k: Bytes, i: nat, space: Store.Keyspace, sum: int) {
    && Store.IsListOrEmpty(ks, k) && i <= |Store.ListOf(ks, k)|
    && space == RotateRounds(ks, k, NewElement, i)
    && Store.IsListOrEmpty(space, k) && |Store.ListOf(space, k)| == |Store.ListOf(ks, k)|
    && sum == WrappedSum(Store.ListOf(ks, k), i)
  }

  /** One round of the loop, with the value val it adds, moves the progress
      one round further. */
  lemma Repl2Next(ks: Store.Keyspace, k: Bytes, i: nat, space: Store.Keyspace, sum: int, val: int)
    requires Repl2Progress(ks, k, i, space, sum) && i < |Store.ListOf(ks, k)|
    requires val == TailBumped(Store.ListOf(space, k))
    ensures Repl2Progress(ks, k, i + 1, RotateStep(space, k, NewElement), Wrap64(sum + val))
  {
    Repl2NextState(ks, k, i, space);
    Repl2NextSum(ks, k, i, space, sum, val);
  }

  /** The keyspace after round i is the one after i + 1 rounds, with a list as long as S. */
  lemma Repl2NextState(ks: Store.Keyspace, k: Bytes, i: nat, space: Store.Keyspace)
    requires Store.IsListOrEmpty(ks, k) && i < |Store.ListOf(ks, k)|
    requires space == RotateRounds(ks, k, NewElement, i)
    ensures RotateStep(space, k, NewElement) == RotateRounds(ks, k, NewElement, i + 1)
    ensures Store.IsListOrEmpty(RotateStep(space, k, NewElement), k)
    ensures |Store.ListOf(RotateStep(space, k, NewElement), k)| == |Store.ListOf(ks, k)|
  {
    RotateRoundsList(ks, k, NewElement, i + 1);
  }

  /** The sum after round i is the wrapped sum of the first i + 1 successors. */
  lemma Repl2NextSum(ks: Store.Keyspace, k: Bytes, i: nat, space: Store.Keyspace, sum: int, val: int)
    requires Store.IsListOrEmpty(ks, k) && i < |Store.ListOf(ks, k)|
    requires space == RotateRounds(ks, k, NewElement, i) && sum == WrappedSum(Store.ListOf(ks, k), i)
    requires val == TailBumped(Store.ListOf(space, k))
    ensures Wrap64(sum + val) == WrappedSum(Store.ListOf(ks, k), i + 1)
  {
    Repl2Tail(ks, k, i);
    WrappedSumStep(Store.ListOf(ks, k), i, sum, val);
  }

  /** Rotates the list once around, incrementing every element, and adds up
      the new values with long long wrap-around. */
  method Repl2Loop(ctx: Ctx, key: KeyHandle, listlen: nat) returns (sum: int)
    requires ctx.Valid() && key.mode == RW
    requires Store.IsListOrEmpty(ctx.space, key.name)
    requires listlen == |Store.ListOf(ctx.space, key.name)|
    modifies ctx`space, ctx`openStrings
    ensures ctx.Valid()
    ensures ctx.space == RotateRounds(old(ctx.space), key.name, NewElement, listlen)
    ensures sum == WrappedSum(Store.ListOf(old(ctx.space), key.name), listlen)
  {
    ghost var ks := ctx.space;
    ghost var i := 0;
    sum := 0;
    var left := listlen;
    while left > 0
      invariant ctx.Valid() && i + left == listlen
      invariant Repl2Progress(ks, key.name, i, ctx.space, sum)
    {
      ghost var space := ctx.space;
      var val := Repl2Round(ctx, key);
      Repl2Next(ks, key.name, i, space, sum, val);
      sum := Wrap64(sum + val);
      left := left - 1;
      i := i + 1;
    }
    assert i == listlen;
  }

  /** Runs the rotate-and-increment loop on a list key and replicates the
      command verbatim. */
  method HelloRepl2(ctx: Ctx, argv: Argv) returns (status: int)
    requires ctx.Valid() && ctx.AtDispatch()
    modifies ctx
    ensures ctx.Valid() && status == OK && ctx.Released()
    ensures |argv| != 2 ==>
      && ctx.space == old(ctx.space) && ctx.replies == [ArityReply]
      && !ctx.autoMemory && ctx.Propagation(argv) == []
    ensures |argv| == 2 ==>
      var o := Repl2(old(ctx.space), argv[1]);
      && ctx.space == o.space && ctx.replies == [o.reply] && ctx.autoMemory
      && ctx.Propagation(argv) == if o.reply.ErrorReply? then [] else [argv]
  {
    if |argv| != 2 {
      status := ctx.WrongArity();
      return;
    }
    ctx.AutoMemory();
    var key := ctx.OpenKey(argv[1], RW);
    if ctx.KeyType(key) != KEYTYPE_LIST {
      status := ctx.ReplyWithError(ERRORMSG_WRONGTYPE);
      return;
    }
    Store.ListLength(ctx.space, key.name);
    var listlen := ctx.ValueLength(key);
    var sum := Repl2Loop(ctx, key, listlen);
    Repl2SumTotal(old(ctx.space), argv[1]);
    var _ := ctx.ReplyWithLongLong(sum);
    var _ := ctx.ReplicateVerbatim();
    status := OK;
  }

  // ---------------------------------------------------------------------------
  // HELLO.TOGGLE.CASE key

  /** isupper and islower in the C locale: the ASCII letters only. */
  predicate IsUpper(b: byte) {
    65 <= b <= 90
  }

  predicate IsLower(b: byte) {
    97 <= b <= 122
  }

  /** isupper(c) ? tolower(c) : toupper(c). */
  function ToggleByte(b: byte): (t: byte)
    ensures IsUpper(b) ==> IsLower(t)
    ensures IsLower(b) ==> IsUpper(t)
    ensures !IsUpper(b) && !IsLower(b) ==> t == b
  {
    if IsUpper(b) then b + 32 else if IsLower(b) then b - 32 else b
  }

  /** Every byte of a string with its case toggled. */
  function Toggled(s: Bytes): (r: Bytes)
    ensures |r| == |s|
    ensures forall j :: 0 <= j < |s| ==> r[j] == ToggleByte(s[j])
  {
    seq(|s|, j requires 0 <= j < |s| => ToggleByte(s[j]))
  }

  /** A letter turns into the same letter of the other case, anything else is
      left as it is, and toggling twice gives the byte back. */
  lemma ToggleByteSwaps(b: byte)
    ensures IsUpper(b) ==> IsLower(ToggleByte(b)) && ToggleByte(b) as int == b as int + 32
    ensures IsLower(b) ==> IsUpper(ToggleByte(b)) && ToggleByte(b) as int == b as int - 32
    ensures !IsUpper(b) && !IsLower(b) ==> ToggleByte(b) == b
    ensures ToggleByte(ToggleByte(b)) == b
  {
  }

  /** Toggling the case of a whole string is its own inverse. */
  lemma ToggledTwice(s: Bytes)
    ensures Toggled(Toggled(s)) == s
  {
    forall j | 0 <= j < |s| ensures Toggled(Toggled(s))[j] == s[j] {
      ToggleByteSwaps(s[j]);
    }
  }

  /** The handler's loop over the DMA buffer, writing each byte in place. */
  method ToggleInPlace(s: array<byte>)
    modifies s
    ensures s[..] == Toggled(old(s[..]))
  {
    for j := 0 to s.Length
      invariant forall i :: 0 <= i < j ==> s[i] == ToggleByte(old(s[i]))
      invariant forall i :: j <= i < s.Length ==> s[i] == old(s[i])
    {
      if IsUpper(s[j]) {
        s[j] := s[j] + 32;
      } else {
        s[j] := if IsLower(s[j]) then s[j] - 32 else s[j];
      }
    }
  }

  /** A string key gets every byte toggled and an empty key stays empty, both
      answered with OK; any other type is a type error that changes nothing. */
  function ToggleCase(ks: Store.Keyspace, k: Bytes): (o: Outcome)
    ensures o.reply == SimpleReply("OK") || o == Outcome(ks, ErrorReply(ERRORMSG_WRONGTYPE))
    ensures o.reply.ErrorReply? <==> k in ks.values && !ks.values[k].StringValue?
    ensures k in ks.values && ks.values[k].StringValue? ==>
              o.space.values == ks.values[k := Store.StringValue(Toggled(ks.values[k].bytes))]
              && o.space.ttls == ks.ttls
    ensures k !in ks.values ==> o.space == ks
  {
    var t := Store.KeyType(ks, k);
    if t != KEYTYPE_STRING && t != KEYTYPE_EMPTY then Outcome(ks, ErrorReply(ERRORMSG_WRONGTYPE))
    else if t == KEYTYPE_STRING then
      Outcome(Store.WithString(ks, k, Toggled(ks.values[k].bytes)), SimpleReply("OK"))
    else Outcome(ks, SimpleReply("OK"))
  }

  /** Running the command twice on the same key gives the keyspace back. */
  lemma ToggleCaseTwice(ks: Store.Keyspace, k: Bytes)
    ensures ToggleCase(ToggleCase(ks, k).space, k).space == ks
  {
    if k in ks.values && ks.values[k].StringValue? {
      var b := ks.values[k].bytes;
      ToggledTwice(b);
      assert ks.values[k := Store.StringValue(b)] == ks.values;
    }
  }

  /** Toggles the case of a string key through direct access to its bytes,
      which closing the key makes the key's value. */
  method HelloToggleCase(ctx: Ctx, argv: Argv) returns (status: int)
    requires ctx.Valid() && ctx.AtDispatch()
    modifies ctx
    ensures ctx.Valid() && status == OK
    ensures |argv| != 2 ==>
      ctx.space == old(ctx.space) && ctx.replies == [ArityReply] && ctx.Propagation(argv) == []
    ensures |argv| == 2 ==>
      var o := ToggleCase(old(ctx.space), argv[1]);
      && ctx.space == o.space && ctx.replies == [o.reply]
      && ctx.Propagation(argv) == if o.reply.ErrorReply? then [] else [argv]
    ensures !ctx.autoMemory && ctx.Released()
  {
    if |argv| != 2 {
      status := ctx.WrongArity();
      return;
    }
    var key := ctx.OpenKey(argv[1], RW);
    var keytype := ctx.KeyType(key);
    if keytype != KEYTYPE_STRING && keytype != KEYTYPE_EMPTY {
      ctx.CloseKey(key);
      status := ctx.ReplyWithError(ERRORMSG_WRONGTYPE);
      return;
    }
    if keytype == KEYTYPE_STRING {
      var s := ctx.StringDMA(key);
      ToggleInPlace(s);
    }
    ctx.CloseKey(key);
    var _ := ctx.ReplyWithSimpleString("OK");
    var _ := ctx.ReplicateVerbatim();
    status := OK;
  }

  // ---------------------------------------------------------------------------
  // HELLO.MORE.EXPIRE key milliseconds

  /** A key with an expire has it moved by addms, as long long arithmetic;
      SetExpire refuses an empty key, so only a key that exists changes. */
  function MoreExpireBy(ks: Store.Keyspace, k: Bytes, addms: int): (r: Store.Keyspace)
    ensures r.values == ks.values && r.ttls - {k} == ks.ttls - {k}
    ensures Store.ExpireOf(ks, k) == NO_EXPIRE ==> r == ks
    ensures Store.ExpireOf(ks, k) != NO_EXPIRE && k in ks.values ==>
              Store.ExpireOf(r, k) == Wrap64(Store.ExpireOf(ks, k) + addms)
  {
    var expire := Store.ExpireOf(ks, k);
    if expire != NO_EXPIRE && k in ks.values then Store.WithExpire(ks, k, Wrap64(expire + addms))
    else ks
  }

  /** An unparsable amount is an error that touches nothing; otherwise the
      reply is OK and the expire is moved by the amount. */
  function MoreExpire(ks: Store.Keyspace, k: Bytes, addArg: Bytes): (o: Outcome)
    ensures Parse(addArg).None? <==> o == Outcome(ks, ErrorReply(ERRORMSG_INVALID_EXPIRE))
    ensures Parse(addArg).Some? ==> o == Outcome(MoreExpireBy(ks, k, Parse(addArg).value), SimpleReply("OK"))
  {
    match Parse(addArg)
    case None => Outcome(ks, ErrorReply(ERRORMSG_INVALID_EXPIRE))
    case Some(addms) => Outcome(MoreExpireBy(ks, k, addms), SimpleReply("OK"))
  }

  /** The command keeps the keyspace's invariant, and on a valid keyspace
      every key with an expire gets it moved. */
  lemma {:induction false} MoreExpireValid(ks: Store.Keyspace, k: Bytes, addms: int)
    requires ks.Valid()
    ensures MoreExpireBy(ks, k, addms).Valid()
    ensures k in ks.ttls ==> Store.ExpireOf(MoreExpireBy(ks, k, addms), k) == Wrap64(ks.ttls[k] + addms)
    ensures k !in ks.ttls ==> MoreExpireBy(ks, k, addms) == ks
  {
  }

  /** Extending by a and then by b is extending by a + b, unless the first
      step lands exactly on the "no expire" sentinel and so removes the expire. */
  lemma {:induction false} MoreExpireCompose(ks: Store.Keyspace, k: Bytes, a: int, b: int)
    requires ks.Valid() && k in ks.ttls
    requires Wrap64(ks.ttls[k] + a) != NO_EXPIRE
    ensures MoreExpireBy(MoreExpireBy(ks, k, a), k, b) == MoreExpireBy(ks, k, Wrap64(a + b))
  {
    var t, x := ks.ttls[k], Wrap64(ks.ttls[k] + a);
    var mid := MoreExpireBy(ks, k, a);
    assert mid == Store.WithExpire(ks, k, x);
    assert MoreExpireBy(mid, k, b) == Store.WithExpire(mid, k, Wrap64(x + b));
    Store.WithExpireTwice(ks, k, x, Wrap64(x + b));
    Wrap64Assoc(t, a, b);
  }

  /** Adds milliseconds to the expire of a key that has one. */
  method HelloMoreExpire(ctx: Ctx, argv: Argv) returns (status: int)
    requires ctx.Valid() && ctx.AtDispatch()
    modifies ctx
    ensures ctx.Valid() && status == OK
    ensures |argv| != 3 ==> ctx.space == old(ctx.space) && ctx.replies == [ArityReply]
    ensures |argv| == 3 ==>
      var o := MoreExpire(old(ctx.space), argv[1], argv[2]);
      ctx.space == o.space && ctx.replies == [o.reply]
    ensures ctx.autoMemory && ctx.Released()
    ensures ctx.Propagation(argv) == []
  {
    ctx.AutoMemory();
    if |argv| != 3 {
      status := ctx.WrongArity();
      return;
    }
    var addms := ctx.StringToLongLong(argv[2]);
    if addms.None? {
      status := ctx.ReplyWithError(ERRORMSG_INVALID_EXPIRE);
      return;
    }
    var key := ctx.OpenKey(argv[1], RW);
    var expire := ctx.GetExpire(key);
    if expire != NO_EXPIRE {
      expire := Wrap64(expire + addms.value);
      var _ := ctx.SetExpire(key, expire);
    }
    status := ctx.ReplyWithSimpleString("OK");
  }

  // ---------------------------------------------------------------------------
  // RedisModule_OnLoad

  /** The module's command handlers, as entries of the server's command table. */
  datatype Handler =
    | SimpleCmd | PushNativeCmd | PushCallCmd | PushCall2Cmd | ListSumLenCmd
    | ListSpliceCmd | ListSpliceAutoCmd | RandArrayCmd | Repl1Cmd | Repl2Cmd
    | ToggleCaseCmd | MoreExpireCmd | ZsumRangeCmd

  /** The commands the module registers, in the order it registers them. */
  const Commands: seq<(string, Handler)> :=
    [
      ("hello.simple", SimpleCmd),
      ("hello.push.native", PushNativeCmd),
      ("hello.push.call", PushCallCmd),
      ("hello.push.call2", PushCall2Cmd),
      ("hello.list.sum.len", ListSumLenCmd),
      ("hello.list.splice", ListSpliceCmd),
      ("hello.list.splice.auto", ListSpliceAutoCmd),
      ("hello.rand.array", RandArrayCmd),
      ("hello.repl1", Repl1Cmd),
      ("hello.repl2", Repl2Cmd),
      ("hello.toggle.case", ToggleCaseCmd),
      ("hello.more.expire", MoreExpireCmd),
      ("hello.zsumrange", ZsumRangeCmd)
    ]

  function NamesOf(entries: seq<(string, Handler)>): (r: seq<string>)
    ensures |r| == |entries|
    ensures forall j :: 0 <= j < |entries| ==> r[j] == entries[j].0
  {
    seq(|entries|, j requires 0 <= j < |entries| => entries[j].0)
  }

  /** No two entries share a name. */
  ghost predicate NamesDistinct(entries: seq<(string, Handler)>) {
    forall a, b :: 0 <= a < b < |entries| ==> entries[a].0 != entries[b].0
  }

  /** Thirteen names, no two alike. */
  lemma CommandNamesDistinct()
    ensures |Commands| == 13
    ensures NamesDistinct(Commands)
  {
  }

  /** The position of the first entry whose name is already taken, or the
      number of entries when none is. */
  function FirstTaken(entries: seq<(string, Handler)>, taken: set<string>): (f: nat)
    ensures f <= |entries|
    ensures forall j :: 0 <= j < f ==> entries[j].0 !in taken
    ensures f < |entries| ==> entries[f].0 in taken
  {
    if entries == [] then 0
    else if entries[0].0 in taken then 0
    else 1 + FirstTaken(entries[1..], taken)
  }

  /** The command table after registering the entries in order. */
  function Register(table: map<string, Handler>, entries: seq<(string, Handler)>): map<string, Handler>
  {
    if entries == [] then table
    else Register(table, entries[..|entries| - 1])[entries[|entries| - 1].0 := entries[|entries| - 1].1]
  }

  /** Registering adds exactly the entries' names to the table. */
  lemma {:induction false} RegisterKeys(table: map<string, Handler>, entries: seq<(string, Handler)>, n: string)
    ensures n in Register(table, entries) <==> n in table || n in NamesOf(entries)
  {
    if entries != [] {
      var init := entries[..|entries| - 1];
      RegisterKeys(table, init, n);
      assert NamesOf(entries) == NamesOf(init) + [entries[|entries| - 1].0];
    }
  }

  /** With distinct names, each registered name maps to its own handler and
      every other name keeps its entry. */
  lemma {:induction false} RegisterLookup(table: map<string, Handler>, entries: seq<(string, Handler)>, j: nat)
    requires j < |entries| && NamesDistinct(entries)
    ensures entries[j].0 in Register(table, entries)
    ensures Register(table, entries)[entries[j].0] == entries[j].1
  {
    if j < |entries| - 1 {
      RegisterLookup(table, entries[..|entries| - 1], j);
    }
  }

  /** Creates the entries' commands in order, stopping with ERR at the first
      one the server refuses; the commands before it stay registered and none
      after it is attempted. */
  method CreateCommands(ctx: Binder.LoadCtx<Handler>, entries: seq<(string, Handler)>) returns (status: int)
    requires NamesDistinct(entries)
    modifies ctx`commands, ctx`registered
    ensures var f := FirstTaken(entries, old(ctx.commands).Keys);
      && status == (if f == |entries| then OK else ERR)
      && ctx.registered == old(ctx.registered) + NamesOf(entries[..f])
      && ctx.commands == Register(old(ctx.commands), entries[..f])
  {
    ghost var f := FirstTaken(entries, old(ctx.commands).Keys);
    var i := 0;
    while i < |entries|
      invariant 0 <= i <= f
      invariant ctx.registered == old(ctx.registered) + NamesOf(entries[..i])
      invariant ctx.commands == Register(old(ctx.commands), entries[..i])
    {
      RegisterStep(old(ctx.commands), entries, i);
      var r := ctx.CreateCommand(entries[i].0, entries[i].1);
      if r == ERR {
        return ERR;
      }
      i := i + 1;
    }
    status := OK;
  }

  /** Registering entry i on top of the first i: with distinct names it is
      refused exactly when its name was taken before the first entry. */
  lemma {:induction false} RegisterStep(before: map<string, Handler>, entries: seq<(string, Handler)>, i: nat)
    requires NamesDistinct(entries)
    requires i < |entries| && i <= FirstTaken(entries, before.Keys)
    ensures (entries[i].0 in Register(before, entries[..i])) <==> FirstTaken(entries, before.Keys) == i
    ensures Register(before, entries[..i + 1]) == Register(before, entries[..i])[entries[i].0 := entries[i].1]
    ensures NamesOf(entries[..i + 1]) == NamesOf(entries[..i]) + [entries[i].0]
  {
    RegisterTaken(before, entries, i);
    RegisterAppend(before, entries, i);
  }

  lemma {:induction false} RegisterTaken(before: map<string, Handler>, entries: seq<(string, Handler)>, i: nat)
    requires NamesDistinct(entries)
    requires i < |entries| && i <= FirstTaken(entries, before.Keys)
    ensures (entries[i].0 in Register(before, entries[..i])) <==> FirstTaken(entries, before.Keys) == i
  {
    var n := entries[i].0;
    RegisterKeys(before, entries[..i], n);
    assert n !in NamesOf(entries[..i]);
    assert n in Register(before, entries[..i]) <==> n in before.Keys;
  }

  lemma {:induction false} RegisterAppend(before: map<string, Handler>, entries: seq<(string, Handler)>, i: nat)
    requires i < |entries|
    ensures Register(before, entries[..i + 1]) == Register(before, entries[..i])[entries[i].0 := entries[i].1]
    ensures NamesOf(entries[..i + 1]) == NamesOf(entries[..i]) + [entries[i].0]
  {
    assert entries[..i + 1][..i] == entries[..i];
  }

  /** Initializes the module and creates its thirteen commands, stopping with
      ERR at the first one the server refuses. Both calls go through entry
      points Init binds, so the host must provide them. */
  method OnLoad(api: Binder.Api, ctx: Binder.LoadCtx<Handler>) returns (status: int)
    requires Binder.Prefix + "SetModuleAttribs" in ctx.getApi
    requires Binder.Prefix + "CreateCommand" in ctx.getApi
    modifies api, ctx`attribs, ctx`commands, ctx`registered
    ensures ctx.attribs == old(ctx.attribs) + [Binder.ModuleAttribs("helloworld", 1, APIVER_1)]
    ensures api.lookups == old(api.lookups) + Binder.Prefixed(Binder.CapabilityNames)
    ensures api.slots == Binder.BindAll(old(api.slots), ctx.getApi, Binder.CapabilityNames)
    ensures var f := FirstTaken(Commands, old(ctx.commands).Keys);
      && status == (if f == |Commands| then OK else ERR)
      && ctx.registered == old(ctx.registered) + NamesOf(Commands[..f])
      && ctx.commands == Register(old(ctx.commands), Commands[..f])
  {
    var s := Binder.Init(api, ctx, "helloworld", 1, APIVER_1);
    if s == ERR {
      status := ERR;
      return;
    }
    assert Binder.CapabilityNames[0] == "CreateCommand";
    Binder.BindAllLookup(old(api.slots), ctx.getApi, Binder.CapabilityNames, "CreateCommand");
    assert "CreateCommand" in api.slots;
    CommandNamesDistinct();
    status := CreateCommands(ctx, Commands);
  }

  /** On a server that knows none of the names, loading succeeds and registers
      all thirteen, in order, each with its own handler. */
  lemma {:induction false} OnLoadFresh(before: map<string, Handler>)
    requires forall j :: 0 <= j < |Commands| ==> Commands[j].0 !in before
    ensures FirstTaken(Commands, before.Keys) == |Commands|
    ensures NamesOf(Commands[..|Commands|]) == NamesOf(Commands)
    ensures forall j :: 0 <= j < |Commands| ==>
              Commands[j].0 in Register(before, Commands) &&
              Register(before, Commands)[Commands[j].0] == Commands[j].1
  {
    CommandNamesDistinct();
    assert Commands[..|Commands|] == Commands;
    forall j | 0 <= j < |Commands|
      ensures Commands[j].0 in Register(before, Commands)
      ensures Register(before, Commands)[Commands[j].0] == Commands[j].1
    {
      RegisterLookup(before, Commands, j);
    }
  }
}
