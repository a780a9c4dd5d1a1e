# helloworld: a Dafny model of the Redis sample module and its module API

This project models `helloworld`, the sample module shipped with the Redis
module API. It has three layers, written against the API declared in
`redismodule.h`:

- **Command handlers.** HELLO.PUSH.NATIVE, HELLO.LIST.SUM.LEN,
  HELLO.LIST.SPLICE, HELLO.LIST.SPLICE.AUTO, HELLO.RAND.ARRAY, HELLO.REPL1,
  HELLO.REPL2, HELLO.TOGGLE.CASE and HELLO.MORE.EXPIRE.
- **The load entry point.** `RedisModule_OnLoad` registers the thirteen
  commands.
- **The binding step.** `RedisModule_Init` resolves every capability through
  the accessor stored in the load context.

The model has six modules:

- `ModuleApi` holds the header's constants: status codes, open modes, list
  ends, key and reply types, the expire sentinel, the sorted-set flags and
  the default range.
- `ModuleString` holds binary-safe strings and the decimal conversions behind
  `StringToLongLong` and `CreateStringFromLongLong`. It also holds the
  long long and C int wrap-around the handlers rely on.
- `Store` is the keyspace. Each key has a typed value and an optional time
  to live. The list, string and expire operations of the key API are
  functions on it.
- `Host` is the per-invocation context, `Ctx`, as a class. Its methods are
  the API calls the handlers make, and they update its fields in place:
  - the keyspace;
  - the replies sent;
  - the propagated commands and the verbatim flag;
  - counts of the keys, strings and call replies the handler still owns;
  - the DMA buffers handed out.
- `Binder` models `RedisModule_Init` and the load context:
  - the function-pointer table as a class filled by one `GetApi` lookup per
    capability;
  - the server's command table, which refuses a name it already holds.
- `HelloWorld` holds the handlers. Each handler is a module-level method
  that takes the context `ctx: Ctx` and modifies it. Each is proved against a function of the keyspace it starts from (`ListSplice`, `Repl2`,
  `ToggleCase`, `MoreExpire`, `RandArray`, …). Lemmas then state what those
  functions mean:
  - a splice between different lists moves `min(max(count,0), |src|)` tail
    elements to the head of dst in order;
  - a splice of a list onto itself rotates it;
  - HELLO.REPL2 replaces every element in place by its successor and replies
    their wrapped sum;
  - toggling case twice restores the keyspace;
  - two expire extensions compose;
  - loading registers each name with its own handler.

Nested commands run through `RedisModule_Call` are not visible here. The
context carries them as a parameter, `exec: (Keyspace, Argv) -> Execution`,
which reports the reply, the new keyspace and whether the dataset changed.
`rand()` is likewise a parameter of HELLO.RAND.ARRAY.

Two behaviours of the code are easy to misread:

- `RedisModule_Init` (src/redismodule.h:153-211) does not check the result
  of any lookup and returns `REDISMODULE_OK` every time. An unresolved
  capability is not reported as a failure. The one exception is
  `SetModuleAttribs`: Init calls it through the slot it has just filled, so
  the host must provide it. `Binder.Init` requires that entry and ensures
  `status == OK`.
- Replication does not follow call time. HELLO.REPL1's own comment
  (src/modules/helloworld.c:202-211) says that commands replicated by `Call`
  with "!" come before those queued with `Replicate`, so the ECHO is sent
  after the INCRs. `Ctx.Propagation` keeps the two lists apart, and
  `Repl1Stream` states the stream the comment gives.

## Model

| member | source | states |
|---|---|---|
| `ModuleApi.ToUint32` | src/redismodule.h:70 | the `-1` in the range initializer becomes the largest uint32; values in range are kept and the result is congruent mod 2^32 |
| `ModuleApi.StatusCodes` | src/redismodule.h:11-12 | OK is 0, ERR is 1, and the two differ |
| `ModuleApi.OpenModes` | src/redismodule.h:18-19 | READ and WRITE are distinct single bits and READ\|WRITE contains both |
| `ModuleApi.KeyTypesDistinct` | src/redismodule.h:25-30 | the six key types are pairwise distinct and EMPTY is 0 |
| `ModuleApi.ReplyTypesDistinct` | src/redismodule.h:33-38 | the six reply types are pairwise distinct |
| `ModuleApi.ZaddFlagsSingleBits` | src/redismodule.h:44-48 | each ZADD flag is one bit and no two share a bit |
| `ModuleApi.RangeFlagsSingleBits` | src/redismodule.h:75-76 | the two exclusivity flags are distinct single bits |
| `ModuleApi.RangeInitUnbounded` | src/redismodule.h:70 | the default range runs from -inf to +inf, "-" to "+", positions 0 to the largest uint32 |
| `ModuleString.Wrap64` | src/modules/helloworld.c:253 | the result is a long long, equal to the input when that is one |
| `ModuleString.Wrap64Congruent` | src/modules/helloworld.c:253 | wrap-around changes a value by a multiple of 2^64 |
| `ModuleString.WrapAdd` | src/modules/helloworld.c:253 | wrapping after every addition equals wrapping once at the end |
| `ModuleString.Wrap64Assoc` | src/modules/helloworld.c:319 | two wrapped additions regroup |
| `ModuleString.Int32Of` | src/redismodule.h:123 | the C int a long long converts to is in range, equal when it fits, and congruent mod 2^32 |
| `ModuleString.Parse` | src/redismodule.h:129 | StringToLongLong succeeds only with a long long value |
| `ModuleString.MagnitudeIsValue` | src/redismodule.h:129 | the digit scan accepts exactly runs of decimal digits and reads their value |
| `ModuleString.DigitsOfValue` | src/redismodule.h:118 | the digits CreateStringFromLongLong writes are canonical and read back as the number |
| `ModuleString.ValueOfDigits` | src/redismodule.h:129 | canonical digits are the digits of their value |
| `ModuleString.ParseFormat` | src/modules/helloworld.c:251-254 | parsing the string made from a long long gives the long long back |
| `ModuleString.FormatParse` | src/modules/helloworld.c:251-254 | a string that parses is exactly the string formatted from its value |
| `Store.KeyType` | src/redismodule.h:106 | the reported type is one of the six and matches the stored value's kind, EMPTY exactly for a missing key |
| `Store.ValueLength` | src/redismodule.h:107 | definition of ValueLength: a list's element count, a string's byte count, the size of a hash, set or sorted set, 0 for a missing key |
| `Store.WithList` | src/redismodule.h:108-109 | after storing, the key's list is exactly the given items and the key holds a list or nothing |
| `Store.ListPush` | src/redismodule.h:108 | definition of ListPush: the element is added at the head or tail of a list or empty key; a key of another type is left as it is |
| `Store.ListPop` | src/redismodule.h:109 | definition of ListPop: the end element is removed and returned, an emptied list deletes the key and its expire, and a key without a list gives nothing |
| `Store.PopUndoesPush` | src/redismodule.h:108-109 | on a list or empty key, popping the end an element was pushed at returns that element and restores the list |
| `Store.WithString` | src/redismodule.h:138 | replacing a string keeps the keyspace invariant (used for the DMA write-back) |
| `Store.ExpireOf` | src/redismodule.h:140 | in a valid keyspace GetExpire answers NO_EXPIRE exactly for a key with no expire |
| `Store.WithExpire` | src/redismodule.h:141 | the key's expire becomes the given one, nothing else changes, validity is kept |
| `Store.WithExpireTwice` | src/redismodule.h:141 | a second SetExpire overrides the first |
| `Store.ListOpsValid` | src/redismodule.h:108-109 | push and pop keep the keyspace invariant (no empty lists, expires only on keys) |
| `Store.WithListOther` | src/redismodule.h:108-109 | a list store is invisible at every other key |
| `Store.ListLength` | src/redismodule.h:107 | on a list or empty key, ValueLength is the number of elements |
| `Host.CallReplyType` | src/redismodule.h:113 | the type of a call reply is never UNKNOWN and is ARRAY or ERROR exactly for those replies |
| `Host.CallReplyLength` | src/redismodule.h:115 | definition of CallReplyLength: bytes of a string or error, elements of an array, 0 otherwise |
| `Host.CallReplyArrayElement` | src/redismodule.h:116 | an element exists exactly for an array reply and an index in range, and it is the element at that index |
| `Host.Envelope` | src/modules/helloworld.c:202-211 | several propagated commands travel inside MULTI/EXEC in order; a single one travels alone |
| `Host.Ctx.Propagation` | src/modules/helloworld.c:202-211 | a verbatim invocation propagates exactly the client's command; otherwise Call replication followed by Replicate entries, in an envelope, and nothing exactly when neither queued anything |
| `Host.Ctx.WrongArity` | src/redismodule.h:100 | appends the arity error reply and returns OK |
| `Host.Ctx.ReplyWithLongLong` | src/redismodule.h:101 | appends an integer reply and returns OK |
| `Host.Ctx.ReplyWithError` | src/redismodule.h:121 | appends an error reply with the message and returns OK |
| `Host.Ctx.ReplyWithSimpleString` | src/redismodule.h:122 | appends a status reply with the message and returns OK |
| `Host.Ctx.ReplyWithArray` | src/redismodule.h:123 | appends an array header announcing the given length and returns OK |
| `Host.Ctx.OpenKey` | src/redismodule.h:104 | returns a handle for the name in the requested mode and counts one more open key |
| `Host.Ctx.ListPush` | src/redismodule.h:108 | OK and the pushed list with write mode on a list or empty key, ERR and no change otherwise |
| `Host.Ctx.ListPop` | src/redismodule.h:109 | with write mode the store pops that end (NULL on an empty key) and a popped string is owned by the caller; without write mode NULL and no change |
| `Host.Ctx.CloseKey` | src/redismodule.h:105 | closing writes a DMA buffer back as the key's string and releases the key |
| `Host.Ctx.StringDMA` | src/redismodule.h:138 | the buffer holds the string's bytes and is registered for write-back |
| `Host.Ctx.SetExpire` | src/redismodule.h:141 | ERR on an empty key or without write mode, otherwise the expire is set |
| `Host.Ctx.CreateStringFromLongLong` | src/redismodule.h:118 | the new string is the decimal form of the number and is owned by the caller |
| `Host.Ctx.FreeString` | src/redismodule.h:119 | releases one owned string |
| `Host.Ctx.Call` | src/redismodule.h:110 | runs the nested command; with "!" a command that changed the dataset is queued for propagation |
| `Host.Ctx.FreeCallReply` | src/redismodule.h:112 | releases one call reply |
| `Host.Ctx.Replicate` | src/redismodule.h:132 | appends the command to the Replicate queue, after any Call replication, and returns OK |
| `Host.Ctx.ReplicateVerbatim` | src/redismodule.h:133 | pending propagation is dropped and the invocation propagates as the client's command |
| `Host.Ctx.AutoMemory` | src/redismodule.h:131 | turns on automatic memory management for the rest of the invocation |
| `Binder.LoadCtx.SetModuleAttribs` | src/redismodule.h:99 | records the module's name, version and API version and returns OK |
| `Binder.LoadCtx.CreateCommand` | src/redismodule.h:98 | a name the server already has is refused with ERR and changes nothing; otherwise it is registered |
| `Binder.Api.GetApi` | src/redismodule.h:92-93 | REDISMODULE_GET_API looks up "RedisModule_"+name and binds the slot when the host has it |
| `Binder.BindAllLookup` | src/redismodule.h:156-208 | after the lookups a listed capability the host has is bound to its entry point; every other slot is unchanged |
| `Binder.GetApis` | src/redismodule.h:156-208 | the capabilities are looked up once each, in order |
| `Binder.Init` | src/redismodule.h:153-211 | on a host that provides SetModuleAttribs, Init binds every capability in order, records name and versions through that entry point, and returns OK whatever the other lookups found |
| `HelloWorld.HelloPushNative` | src/modules/helloworld.c:22-34 | arity error, or the element pushed at the tail and the key's new length replied |
| `HelloWorld.PushNativeAppends` | src/modules/helloworld.c:26-32 | on a list or empty key the list grows by the element at its tail and the length by one, nothing else changes; on another type nothing changes |
| `HelloWorld.LRangeReply` | src/modules/helloworld.c:78 | definition of the answer LRANGE 0 -1 gives for a list: an array of its elements, in order |
| `HelloWorld.LengthSumOfList` | src/modules/helloworld.c:79-85 | adding up the element lengths of that reply gives the list's total bytes |
| `HelloWorld.SumLengths` | src/modules/helloworld.c:79-85 | the loop adds the lengths of all elements of the reply |
| `HelloWorld.HelloListSumLen` | src/modules/helloworld.c:72-89 | the reply is the summed element lengths of LRANGE's answer, which is the list's total bytes when LRANGE answers with the list |
| `HelloWorld.SpliceStep` | src/modules/helloworld.c:124-126 | definition of one loop round: pop the tail of src and, when there was one, push it at the head of dst |
| `HelloWorld.Splice` | src/modules/helloworld.c:121-128 | definition of the keyspace after count rounds, none for a count that is not positive |
| `HelloWorld.Moved` | src/modules/helloworld.c:91-94 | the number of elements a count moves is at most the list's length |
| `HelloWorld.ListSplice` | src/modules/helloworld.c:103-133 | both keys must be lists or empty, then the count must parse; either error changes nothing |
| `HelloWorld.SpliceStuck` | src/modules/helloworld.c:124-125 | once src is empty further rounds change nothing, so leaving the loop early is sound |
| `HelloWorld.SpliceStepDistinct` | src/modules/helloworld.c:124-126 | one round between different lists moves the tail of src to the head of dst and changes no other key |
| `HelloWorld.SpliceDistinct` | src/modules/helloworld.c:121-133 | between different lists the last min(max(count,0),\|src\|) elements of src head dst in their order, the reply is what is left, no other key changes |
| `HelloWorld.SpliceMovedBetween` | src/modules/helloworld.c:121-128 | after count rounds exactly Moved(count,\|src\|) elements have moved |
| `HelloWorld.RotatedRightSplit` | src/modules/helloworld.c:121-128 | rotating right n <= \|s\| times puts the last n elements first |
| `HelloWorld.RotatedRightPeriod` | src/modules/helloworld.c:121-128 | \|s\| rotations bring a list back |
| `HelloWorld.SpliceSelf` | src/modules/helloworld.c:121-128 | splicing a list onto itself rotates it count times and changes no other key |
| `HelloWorld.ListSpliceEffect` | src/modules/helloworld.c:103-133 | the splice's outcome per element for distinct keys and for one key |
| `HelloWorld.SpliceRound` | src/modules/helloworld.c:122-127 | one pass is one more round, or reports that src is empty and nothing further changes |
| `HelloWorld.SpliceLoop` | src/modules/helloworld.c:121-128 | the loop leaves the keyspace after count rounds and frees every popped string when asked to |
| `HelloWorld.HelloListSplice` | src/modules/helloworld.c:95-135 | the handler's keyspace and reply are ListSplice's; keys closed and strings freed |
| `HelloWorld.HelloListSpliceAuto` | src/modules/helloworld.c:139-173 | the same outcome, with automatic memory management in force |
| `HelloWorld.RandomReplies` | src/modules/helloworld.c:189 | definition of the replies of the loop at line 189: count integers, the j-th being the j-th random number |
| `HelloWorld.RandArray` | src/modules/helloworld.c:178-191 | one well-formed reply: an arity or invalid-count error, or a header of count followed by count integers |
| `HelloWorld.RandArrayAsWritten` | src/modules/helloworld.c:178-191 | definition of the replies as written: the arity and invalid-count errors as in RandArray, otherwise a header carrying the count converted to a C int, followed by count integers |
| `HelloWorld.RandArrayAgrees` | src/modules/helloworld.c:188 | below 2^31 the handler as written and the corrected one reply alike |
| `HelloWorld.RandArrayHeaderTruncated` | src/modules/helloworld.c:188 | count 2^32 gets a header of 0 followed by 2^32 integers, not one reply |
| `HelloWorld.RandArrayZero` | src/modules/helloworld.c:181-188 | count 0 is the empty array |
| `HelloWorld.ReplyRandoms` | src/modules/helloworld.c:189 | the loop sends the count random integers in order |
| `HelloWorld.HelloRandArrayAsWritten` | src/modules/helloworld.c:178-191 | the handler as written sends RandArrayAsWritten's replies |
| `HelloWorld.HelloRandArray` | src/modules/helloworld.c:178-191 | the corrected handler sends RandArray's replies and propagates nothing |
| `HelloWorld.Repl1Stream` | src/modules/helloworld.c:202-217 | the propagated stream for each outcome of the two INCRs: the changing INCRs, then ECHO, in MULTI/EXEC when more than one |
| `HelloWorld.HelloRepl1` | src/modules/helloworld.c:197-222 | two nested INCRs change the keyspace, the reply is 0, the stream is Repl1Stream |
| `HelloWorld.Bumped` | src/modules/helloworld.c:251-252 | the incremented value is a long long |
| `HelloWorld.Repl2` | src/modules/helloworld.c:241-258 | a type error that changes nothing exactly when the key does not hold a list (a missing key included); any integer reply is a long long |
| `HelloWorld.RotateStep` | src/modules/helloworld.c:249-255 | definition of one loop round: pop the tail and push its rewritten value at the head |
| `HelloWorld.RotateRounds` | src/modules/helloworld.c:248-256 | definition of the keyspace after n rounds |
| `HelloWorld.RotateStepShape` | src/modules/helloworld.c:249-255 | one round puts the rewritten tail element at the head, leaves other keys alone, and drops the key's expire only when the list had one element |
| `HelloWorld.RotatedByStep` | src/modules/helloworld.c:248-256 | a round carries "i elements rewritten and moved to the front" to i + 1 |
| `HelloWorld.RotateRoundsShape` | src/modules/helloworld.c:248-256 | after n rounds the last n elements, rewritten, lead the untouched rest; no other key changes |
| `HelloWorld.RotateRoundsList` | src/modules/helloworld.c:248-256 | the list after n rounds, as a sequence |
| `HelloWorld.RotateRoundsTail` | src/modules/helloworld.c:249 | round i pops the i-th element from the original tail |
| `HelloWorld.Repl2Tail` | src/modules/helloworld.c:249-252 | round i adds the successor of the element it pops |
| `HelloWorld.RotateFinal` | src/modules/helloworld.c:248-256 | after \|list\| rounds every element is rewritten in place, in order |
| `HelloWorld.WrappedSum` | src/modules/helloworld.c:245-256 | the running sum after n rounds, wrapped at every addition, is a long long |
| `HelloWorld.WrappedSumTotal` | src/modules/helloworld.c:253 | the sum wrapped at every addition is the wrapped total |
| `HelloWorld.Repl2SumTotal` | src/modules/helloworld.c:245-256 | the loop's sum is the wrapped sum of all successors |
| `HelloWorld.BumpTotalValues` | src/modules/helloworld.c:251-255 | the new elements parse back, and add up to the sum of the successors |
| `HelloWorld.NewElementsParse` | src/modules/helloworld.c:251-255 | each new element parses as the successor of the old one at the same position |
| `HelloWorld.Repl2Effect` | src/modules/helloworld.c:241-258 | on a list: same length, each element replaced in place by its successor, the reply is the wrapped sum of the new values, other keys unchanged |
| `HelloWorld.Repl2Round` | src/modules/helloworld.c:249-255 | one pass is one round, keeps the length and returns the popped tail's successor |
| `HelloWorld.Repl2Next` | src/modules/helloworld.c:248-256 | a pass moves the loop's progress (keyspace and sum) one round further |
| `HelloWorld.Repl2Loop` | src/modules/helloworld.c:244-256 | the loop leaves the keyspace after \|list\| rounds and the wrapped sum of the successors |
| `HelloWorld.HelloRepl2` | src/modules/helloworld.c:234-260 | the handler's keyspace and reply are Repl2's, and a success propagates verbatim |
| `HelloWorld.ToggleByte` | src/modules/helloworld.c:288-292 | an upper-case letter becomes lower case, a lower-case letter upper case, any other byte is kept |
| `HelloWorld.Toggled` | src/modules/helloworld.c:287-293 | definition of the toggled string: each byte passed through ToggleByte, same length |
| `HelloWorld.ToggleByteSwaps` | src/modules/helloworld.c:288-292 | a letter becomes the same letter of the other case, other bytes stay, toggling twice is the identity |
| `HelloWorld.ToggledTwice` | src/modules/helloworld.c:287-293 | toggling a string twice restores it |
| `HelloWorld.ToggleInPlace` | src/modules/helloworld.c:285-293 | the loop leaves the buffer holding the toggled bytes |
| `HelloWorld.ToggleCase` | src/modules/helloworld.c:276-297 | a type error exactly for a non-string key; a string is toggled with its expire kept; an empty key is left as it is |
| `HelloWorld.ToggleCaseTwice` | src/modules/helloworld.c:276-297 | running the command twice restores the keyspace |
| `HelloWorld.HelloToggleCase` | src/modules/helloworld.c:270-300 | the handler's keyspace and reply are ToggleCase's, with every key and DMA buffer released; a success propagates verbatim |
| `HelloWorld.MoreExpireBy` | src/modules/helloworld.c:317-321 | a key with an expire gets it moved by the amount, wrapped; otherwise nothing changes |
| `HelloWorld.MoreExpire` | src/modules/helloworld.c:306-323 | an error exactly when the amount does not parse, otherwise OK and the moved expire |
| `HelloWorld.MoreExpireValid` | src/modules/helloworld.c:317-321 | the command keeps the keyspace invariant |
| `HelloWorld.MoreExpireCompose` | src/modules/helloworld.c:318-320 | extending by a then b is extending by a + b unless the first lands on the sentinel |
| `HelloWorld.HelloMoreExpire` | src/modules/helloworld.c:306-323 | the handler's keyspace and reply are MoreExpire's |
| `HelloWorld.CommandNamesDistinct` | src/modules/helloworld.c:364-414 | the thirteen registered names are pairwise distinct |
| `HelloWorld.FirstTaken` | src/modules/helloworld.c:364-416 | the first entry whose name the server already has, or the number of entries |
| `HelloWorld.Register` | src/modules/helloworld.c:364-414 | definition of the command table after registering the entries in order |
| `HelloWorld.RegisterKeys` | src/modules/helloworld.c:364-414 | registering adds exactly the entries' names |
| `HelloWorld.RegisterLookup` | src/modules/helloworld.c:364-414 | with distinct names each maps to its own handler |
| `HelloWorld.RegisterStep` | src/modules/helloworld.c:364-414 | registering entry i is refused exactly when its name was already taken |
| `HelloWorld.CreateCommands` | src/modules/helloworld.c:364-416 | commands are created in order up to the first refused one, whose ERR is returned |
| `HelloWorld.OnLoad` | src/modules/helloworld.c:360-417 | on a host that provides SetModuleAttribs and CreateCommand, Init runs first, then the thirteen commands are registered up to the first refusal |
| `HelloWorld.OnLoadFresh` | src/modules/helloworld.c:360-417 | on a server without those names every command is registered with its own handler |

## Left out

- HELLO.SIMPLE, HELLO.PUSH.CALL, HELLO.PUSH.CALL2 and HELLO.ZSUMRANGE appear only as entries of the command table:
  - the first three only forward to the host (`GetSelectedDb`, a nested RPUSH);
  - HELLO.ZSUMRANGE sums floating-point scores through the sorted-set iterator, which is not modelled.
- Nested commands (`RedisModule_Call`) are a parameter of the context. What RPUSH, LRANGE and INCR do is the host's, not the module's.
- The `Call` format strings (`"ss"`, `"sll"`, `"c!"`) are not modelled; the argument vector is built directly.
- `rand()` is a parameter of HELLO.RAND.ARRAY.
- HelloWorld.HelloListSumLen: states the list's total byte count only under the assumption that the host's LRANGE answers with the list's elements. The host is a parameter, so that answer is not known.
- HelloWorld.SumLengths: a reply that is not an array, such as LRANGE's error on a key of another type, is summed as 0.
  - `CallReplyLength` of an error reply is its message length, so the loop at src/modules/helloworld.c:82-85 runs.
  - Each `CallReplyArrayElement` is then NULL, and each missing element adds 0.
  - The C code passes that NULL to `CallReplyLength` without checking the reply type. What the host does with it is not modelled.
- HelloWorld.SumLengths: the size_t sum is unbounded. A list whose elements total 2^64 bytes cannot exist in memory.
- HelloWorld.Repl2: `sum += val` and `val++` overflow a signed long long, which C leaves undefined; they are modelled as two's-complement wrap-around.
- HelloWorld.MoreExpire: `expire += addms` is also modelled as two's-complement wrap-around.
- Memory ownership is modelled as counters of open keys, strings and call replies. Which string is freed, and the aliasing between a DMA buffer and the stored value, are not modelled. The buffer is copied in at `StringDMA` and written back at `CloseKey`.
- `StringToLongLong` is modelled as the host's canonical decimal parse: an optional '-', no '+', no leading zeros, no spaces, no "-0", and a value within the long long range.
- The capabilities bound by `Init` are recorded only as slots. The entry points behind them are not modelled.
- The sorted-set range structure and its flags appear as constants only.
- Binder.Init: requires the host to provide `SetModuleAttribs`. The C code calls it through a NULL pointer when it is missing, which is undefined behaviour.
- HelloWorld.OnLoad: requires the host to provide `SetModuleAttribs` and `CreateCommand`, for the same reason.
- Store.ExpireOf / HelloWorld.MoreExpireBy: there is no clock.
  - A time to live is stored as relative milliseconds, and time never passes.
  - No key ever expires. A time to live moved to zero or below stays stored, and the key stays present.
  - This relative reading is what makes `expire += addms` (src/modules/helloworld.c:319) a plain shift of the stored value.
- HelloWorld.ToggleByte: bytes 128 and above are left unchanged.
  - src/modules/helloworld.c:288-292 passes a plain `char` to `isupper`, `tolower` and `toupper`.
  - Where `char` is signed, those bytes are negative, and the C behaviour is undefined.

## Findings

| source | as written | input that shows it | evidently intended | confidence | as-written member | corrected member |
|---|---|---|---|---|---|---|
| src/modules/helloworld.c:188 | `RedisModule_ReplyWithArray(ctx,count)` passes the long long count to an `int` parameter | `HELLO.RAND.ARRAY 4294967296`: the header announces 0 elements, then 2^32 integers follow | the header announces count, so the reply is one array of count integers | not executed | `HelloWorld.RandArrayHeaderTruncated` | `HelloWorld.RandArray` |
