/** Binding a module to the host at load time: the capability lookups of
    RedisModule_Init into the module's table of entry points, and the load
    context through which the module names itself and registers commands. */
module Binder {
  import opened ModuleApi

  /** An opaque entry point supplied by the host. */
  type EntryPoint = nat

  const Prefix: string := "RedisModule_"

  /** Naming the module and registering commands. */
  const RegistrationCaps: seq<string> :=
    [
      "CreateCommand",
      "SetModuleAttribs",
      "WrongArity"
    ]

  /** Replying to the client. */
  const ReplyCaps: seq<string> :=
    [
      "ReplyWithLongLong",
      "ReplyWithError",
      "ReplyWithSimpleString",
      "ReplyWithArray",
      "ReplyWithStringBuffer",
      "ReplyWithString",
      "ReplyWithNull",
      "ReplyWithCallReply",
      "ReplyWithDouble"
    ]

  /** Selecting a database and working on keys and lists. */
  const KeyCaps: seq<string> :=
    [
      "GetSelectedDb",
      "SelectDb",
      "OpenKey",
      "CloseKey",
      "KeyType",
      "ValueLength",
      "ListPush",
      "ListPop"
    ]

  /** Reading numbers from strings. */
  const ConversionCaps: seq<string> :=
    [
      "StringToLongLong",
      "StringToDouble"
    ]

  /** Nested commands and their replies. */
  const CallCaps: seq<string> :=
    [
      "Call",
      "CallReplyProto",
      "FreeCallReply",
      "CallReplyInteger",
      "CallReplyType",
      "CallReplyLength",
      "CallReplyArrayElement",
      "CallReplyStringPtr",
      "CreateStringFromCallReply"
    ]

  /** Creating and reading strings. */
  const StringCaps: seq<string> :=
    [
      "CreateString",
      "CreateStringFromLongLong",
      "FreeString",
      "StringPtrLen"
    ]

  /** Automatic memory and replication. */
  const ContextCaps: seq<string> :=
    [
      "AutoMemory",
      "Replicate",
      "ReplicateVerbatim"
    ]

  /** Deleting keys, string values and expires. */
  const ValueCaps: seq<string> :=
    [
      "DeleteKey",
      "StringSet",
      "StringDMA",
      "StringTruncate",
      "GetExpire",
      "SetExpire"
    ]

  /** Sorted sets. */
  const ZsetCaps: seq<string> :=
    [
      "ZsetAdd",
      "ZsetIncrby",
      "ZsetScore",
      "ZsetRem",
      "ZsetRangeStop",
      "ZsetFirstInRange",
      "ZsetRangeCurrentElement",
      "ZsetRangeNext",
      "ZsetRangeEndReached"
    ]

  /** The capabilities Init looks up, in the order it looks them up. */
  const CapabilityNames: seq<string> :=
    RegistrationCaps + ReplyCaps + KeyCaps + ConversionCaps + CallCaps
    + StringCaps + ContextCaps + ValueCaps + ZsetCaps

  datatype ModuleAttribs = ModuleAttribs(name: string, ver: int, apiver: int)

  /** The context the host passes to the load entry point. */
  class LoadCtx<H> {
    /** The GetApi accessor stored in the context's first word, as the table
        of names it resolves. */
    const getApi: map<string, EntryPoint>
    var attribs: seq<ModuleAttribs>
    /** The server's command table. */
    var commands: map<string, H>
    /** The names registered through this context, in order. */
    var registered: seq<string>

    constructor (getApi: map<string, EntryPoint>, commands: map<string, H>)
      ensures this.getApi == getApi && this.commands == commands
      ensures attribs == [] && registered == []
    {
      this.getApi := getApi;
      this.commands := commands;
      attribs, registered := [], [];
    }

    method SetModuleAttribs(name: string, ver: int, apiver: int) returns (status: int)
      modifies this`attribs
      ensures status == OK && attribs == old(attribs) + [ModuleAttribs(name, ver, apiver)]
    {
      attribs := attribs + [ModuleAttribs(name, ver, apiver)];
      status := OK;
    }

    /** A name the server already knows is refused with ERR and changes nothing. */
    method CreateCommand(name: string, handler: H) returns (status: int)
      modifies this`commands, this`registered
      ensures status == if name in old(commands) then ERR else OK
      ensures status == OK ==> commands == old(commands)[name := handler]
                               && registered == old(registered) + [name]
      ensures status == ERR ==> commands == old(commands) && registered == old(registered)
    {
      if name in commands {
        status := ERR;
      } else {
        commands := commands[name := handler];
        registered := registered + [name];
        status := OK;
      }
    }
  }

  /** The result of one lookup: the slot is set when the host knows the name,
      and keeps its value otherwise. */
  function Bind(slots: map<string, EntryPoint>, table: map<string, EntryPoint>, name: string)
    : map<string, EntryPoint>
  {
    if Prefix + name in table then slots[name := table[Prefix + name]] else slots
  }

  /** The slots after looking up the names in order. */
  function BindAll(slots: map<string, EntryPoint>, table: map<string, EntryPoint>, names: seq<string>)
    : map<string, EntryPoint>
  {
    if names == [] then slots
    else Bind(BindAll(slots, table, names[..|names| - 1]), table, names[|names| - 1])
  }

  /** After the lookups, a listed capability the host provides is bound to the
      host's entry point for "RedisModule_" + its name; every other slot is as
      it was. */
  lemma {:induction false} BindAllLookup(
    slots: map<string, EntryPoint>, table: map<string, EntryPoint>, names: seq<string>, n: string)
    ensures var r := BindAll(slots, table, names);
      && (n in names && Prefix + n in table ==> n in r && r[n] == table[Prefix + n])
      && (!(n in names && Prefix + n in table) ==>
            (n in r <==> n in slots) && (n in slots ==> r[n] == slots[n]))
  {
    if names != [] {
      var init := names[..|names| - 1];
      BindAllLookup(slots, table, init, n);
      assert n in names <==> n in init || n == names[|names| - 1] by {
        assert names == init + [names[|names| - 1]];
      }
    }
  }

  /** The module's function-pointer table. */
  class Api {
    /** RedisModule_GetApi. */
    var getApi: map<string, EntryPoint>
    /** RedisModule_<name> for each capability bound so far. */
    var slots: map<string, EntryPoint>
    /** The names passed to GetApi, in order. */
    var lookups: seq<string>

    constructor ()
      ensures getApi == map[] && slots == map[] && lookups == []
    {
      getApi, slots, lookups := map[], map[], [];
    }

    /** REDISMODULE_GET_API(name). */
    method GetApi(name: string) returns (status: int)
      modifies this`slots, this`lookups
      ensures lookups == old(lookups) + [Prefix + name]
      ensures slots == Bind(old(slots), getApi, name)
      ensures status == if Prefix + name in getApi then OK else ERR
    {
      lookups := lookups + [Prefix + name];
      if Prefix + name in getApi {
        slots := slots[name := getApi[Prefix + name]];
        status := OK;
      } else {
        status := ERR;
      }
    }
  }

  function Prefixed(names: seq<string>): (r: seq<string>)
    ensures |r| == |names|
    ensures forall i :: 0 <= i < |names| ==> r[i] == Prefix + names[i]
  {
    seq(|names|, i requires 0 <= i < |names| => Prefix + names[i])
  }

  /** Looks the names up one after another through GetApi. */
  method GetApis(api: Api, names: seq<string>)
    modifies api`slots, api`lookups
    ensures api.lookups == old(api.lookups) + Prefixed(names)
    ensures api.slots == BindAll(old(api.slots), api.getApi, names)
  {
    var i := 0;
    while i < |names|
      invariant 0 <= i <= |names|
      invariant api.lookups == old(api.lookups) + Prefixed(names[..i])
      invariant api.slots == BindAll(old(api.slots), api.getApi, names[..i])
    {
      var _ := api.GetApi(names[i]);
      assert names[..i + 1][..i] == names[..i];
      i := i + 1;
    }
    assert names[..i] == names;
  }

  /** RedisModule_Init: takes the accessor from the context, looks every
      capability up once in the fixed order, records the module's name and
      versions through the SetModuleAttribs entry point it has just bound,
      and reports OK whatever the other lookups found. Without that entry
      point the C code calls through a NULL pointer, so the host must have it. */
  method Init<H>(api: Api, ctx: LoadCtx<H>, name: string, ver: int, apiver: int) returns (status: int)
    requires Prefix + "SetModuleAttribs" in ctx.getApi
    modifies api, ctx`attribs
    ensures status == OK
    ensures api.getApi == ctx.getApi
    ensures api.lookups == old(api.lookups) + Prefixed(CapabilityNames)
    ensures api.slots == BindAll(old(api.slots), ctx.getApi, CapabilityNames)
    ensures ctx.attribs == old(ctx.attribs) + [ModuleAttribs(name, ver, apiver)]
  {
    api.getApi := ctx.getApi;
    GetApis(api, CapabilityNames);
    assert CapabilityNames[1] == "SetModuleAttribs";
    BindAllLookup(old(api.slots), ctx.getApi, CapabilityNames, "SetModuleAttribs");
    assert "SetModuleAttribs" in api.slots;
    var _ := ctx.SetModuleAttribs(name, ver, apiver);
    status := OK;
  }
}
