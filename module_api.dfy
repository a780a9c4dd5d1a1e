/** The constants shared by the Redis core and its modules: status codes,
    open-mode flags, key and reply types, the expire sentinel, the sorted-set
    flags and the default sorted-set range. */
module ModuleApi {

  /** Status codes returned by every API call and by every command handler. */
  const OK: int := 0
  const ERR: int := 1

  const APIVER_1: int := 1

  /** Modes for opening a key. */
  const READ: bv32 := 1 << 0
  const WRITE: bv32 := 1 << 1

  /** Ends of a list for push and pop. */
  const LIST_HEAD: int := 0
  const LIST_TAIL: int := 1

  /** Key types. */
  const KEYTYPE_EMPTY: int := 0
  const KEYTYPE_STRING: int := 1
  const KEYTYPE_LIST: int := 2
  const KEYTYPE_HASH: int := 3
  const KEYTYPE_SET: int := 4
  const KEYTYPE_ZSET: int := 5

  const KeyTypes: seq<int> :=
    [KEYTYPE_EMPTY, KEYTYPE_STRING, KEYTYPE_LIST, KEYTYPE_HASH, KEYTYPE_SET, KEYTYPE_ZSET]

  /** Types of the reply objects that a nested call returns. */
  const REPLY_UNKNOWN: int := -1
  const REPLY_STRING: int := 0
  const REPLY_ERROR: int := 1
  const REPLY_INTEGER: int := 2
  const REPLY_ARRAY: int := 3
  const REPLY_NULL: int := 4

  const ReplyTypes: seq<int> :=
    [REPLY_UNKNOWN, REPLY_STRING, REPLY_ERROR, REPLY_INTEGER, REPLY_ARRAY, REPLY_NULL]

  /** What reading the expire of a key without one returns. */
  const NO_EXPIRE: int := -1

  /** Sorted-set add flags: XX and NX are inputs, the other three outputs. */
  const ZADD_XX: bv32 := 1 << 0
  const ZADD_NX: bv32 := 1 << 1
  const ZADD_ADDED: bv32 := 1 << 2
  const ZADD_UPDATED: bv32 := 1 << 3
  const ZADD_NOP: bv32 := 1 << 4

  const ZaddFlags: seq<bv32> := [ZADD_XX, ZADD_NX, ZADD_ADDED, ZADD_UPDATED, ZADD_NOP]

  const ERRORMSG_WRONGTYPE: string :=
    "WRONGTYPE Operation against a key holding the wrong kind of value"

  /** Kinds of sorted-set range. */
  const ZSET_RANGE_LEX: int := 1
  const ZSET_RANGE_SCORE: int := 2
  const ZSET_RANGE_POS: int := 3

  /** Exclusivity flags of a sorted-set range. */
  const ZSET_RANGE_START_EX: bv32 := 1 << 0
  const ZSET_RANGE_END_EX: bv32 := 1 << 1

  /** The range structure's fields are 32-bit unsigned where C declares uint32_t. */
  newtype uint32 = x: int | 0 <= x < 0x1_0000_0000

  /** C's conversion of an integer constant to uint32_t: reduction modulo 2^32. */
  function ToUint32(x: int): (r: uint32)
    ensures 0 <= x < 0x1_0000_0000 ==> r as int == x
    ensures (x - r as int) % 0x1_0000_0000 == 0
  {
    (x % 0x1_0000_0000) as uint32
  }

  /** A score bound: the two infinities the header defines, or a finite score. */
  datatype ScoreBound = NegativeInfinite | Finite(score: real) | PositiveInfinite

  datatype ZsetRange = ZsetRange(
    kind: uint32,
    flags: uint32,
    scoreStart: ScoreBound,
    scoreEnd: ScoreBound,
    lexStart: string,
    lexEnd: string,
    lexStartLen: uint32,
    lexEndLen: uint32,
    posStart: uint32,
    posEnd: uint32)

  /** The initializer {0,0,-inf,+inf,"-","+",1,1,0,-1}. */
  const ZSET_RANGE_INIT: ZsetRange :=
    ZsetRange(0, 0, NegativeInfinite, PositiveInfinite, "-", "+", 1, 1, 0, ToUint32(-1))

  /** A flag word with exactly one bit set. */
  predicate SingleBit(x: bv32) {
    x != 0 && x & (x - 1) == 0
  }

  lemma StatusCodes()
    ensures OK == 0 && ERR == 1 && OK != ERR
  {
  }

  lemma OpenModes()
    ensures SingleBit(READ) && SingleBit(WRITE)
    ensures READ & WRITE == 0
    ensures (READ | WRITE) & READ == READ && (READ | WRITE) & WRITE == WRITE
  {
  }

  lemma KeyTypesDistinct()
    ensures KEYTYPE_EMPTY == 0
    ensures forall i, j :: 0 <= i < j < |KeyTypes| ==> KeyTypes[i] != KeyTypes[j]
  {
  }

  lemma ReplyTypesDistinct()
    ensures forall i, j :: 0 <= i < j < |ReplyTypes| ==> ReplyTypes[i] != ReplyTypes[j]
  {
  }

  lemma ZaddFlagsSingleBits()
    ensures forall i :: 0 <= i < |ZaddFlags| ==> SingleBit(ZaddFlags[i])
    ensures forall i, j :: 0 <= i < j < |ZaddFlags| ==> ZaddFlags[i] & ZaddFlags[j] == 0
  {
  }

  lemma RangeFlagsSingleBits()
    ensures SingleBit(ZSET_RANGE_START_EX) && SingleBit(ZSET_RANGE_END_EX)
    ensures ZSET_RANGE_START_EX & ZSET_RANGE_END_EX == 0
  {
  }

  /** The default range covers everything: both scores unbounded, the whole
      lexicographic span "-" to "+", and positions 0 to the largest uint32. */
  lemma RangeInitUnbounded()
    ensures ZSET_RANGE_INIT.scoreStart == NegativeInfinite
    ensures ZSET_RANGE_INIT.scoreEnd == PositiveInfinite
    ensures ZSET_RANGE_INIT.lexStart == "-" && ZSET_RANGE_INIT.lexEnd == "+"
    ensures ZSET_RANGE_INIT.posStart == 0 && ZSET_RANGE_INIT.posEnd as int == 0xFFFF_FFFF
  {
  }
}
