/** The key-management command line of cli/apikey.ts: command dispatch, the
    argument and flag resolution of `create`, and the exit status of each
    command. Console output is not modelled; the effect on the key file is. */
module Cli {
  import opened Wrappers
  import opened Text
  import opened Keys
  import Auth
  import Seqs

  predicate IsOption(arg: string) {
    StartsWith(arg, "--")
  }

  /** The first argument that is neither an option nor empty, or `""`. */
  function FirstName(args: seq<string>): (r: string)
    ensures r == "" <==> forall i :: 0 <= i < |args| ==> IsOption(args[i]) || args[i] == ""
    ensures r != "" ==> exists i :: (&& 0 <= i < |args| && args[i] == r && !IsOption(r)
                                     && forall j :: 0 <= j < i ==> IsOption(args[j]) || args[j] == "")
  {
    if args == [] then ""
    else if IsOption(args[0]) || args[0] == "" then
      var r := FirstName(args[1..]);
      assert forall i :: 1 <= i < |args| ==> args[i] == args[1..][i - 1];
      r
    else args[0]
  }

  /** The loop of `createKey`: options are collected in order, and the name is
      taken from the first positional argument while it is still empty. */
  method ResolveCreateArgs(args: seq<string>) returns (name: string, optionArgs: seq<string>)
    ensures name == FirstName(args)
    ensures optionArgs == Seqs.Filter(IsOption, args)
  {
    name := "";
    optionArgs := [];
    var i := 0;
    while i < |args|
      invariant 0 <= i <= |args|
      invariant name == FirstName(args[..i])
      invariant optionArgs == Seqs.Filter(IsOption, args[..i])
    {
      var arg := args[i];
      ResolveStep(args, i);
      if IsOption(arg) {
        optionArgs := optionArgs + [arg];
      } else if name == "" {
        name := arg;
      }
      i := i + 1;
    }
    assert args[..|args|] == args;
  }

  /** What one more argument does to the name and the collected options. */
  lemma ResolveStep(args: seq<string>, i: nat)
    requires i < |args|
    ensures FirstName(args[..i + 1]) ==
      if FirstName(args[..i]) == "" && !IsOption(args[i]) then args[i] else FirstName(args[..i])
    ensures Seqs.Filter(IsOption, args[..i + 1]) ==
      Seqs.Filter(IsOption, args[..i]) + (if IsOption(args[i]) then [args[i]] else [])
  {
    assert args[..i + 1] == args[..i] + [args[i]];
    FirstNameSnoc(args[..i], args[i]);
    Seqs.FilterSnoc(IsOption, args[..i], args[i]);
  }

  lemma {:induction false} FirstNameSnoc(args: seq<string>, arg: string)
    ensures FirstName(args + [arg]) ==
      if FirstName(args) == "" && !IsOption(arg) then arg else FirstName(args)
    decreases |args|
  {
    if args == [] {
      assert [] + [arg] == [arg];
      assert [arg][1..] == [];
    } else {
      assert (args + [arg])[1..] == args[1..] + [arg];
      FirstNameSnoc(args[1..], arg);
    }
  }

  /** The command-line flag that grants a permission. */
  function FlagName(perm: Perm): string {
    match perm
    case ViewStats => "--viewStats"
    case CreateApiKey => "--createApiKey"
    case DeleteApiKey => "--deleteApiKey"
    case ViewApiKeys => "--viewApiKeys"
    case UsePowerCommands => "--usePowerCommands"
  }

  const AdminFlag: string := "--admin"
  const NoViewStatsFlag: string := "--no-viewStats"

  /** The permissions before any flag: only `viewStats`. */
  const Defaults: Permissions := Permissions(true, false, false, false, false)

  /** The flag handling of `createKey`, as the sequence of assignments it performs. */
  function ResolvePermissions(options: seq<string>): (r: Permissions)
    ensures AdminFlag in options ==> forall perm :: Has(r, perm)
    ensures AdminFlag !in options ==> (Has(r, ViewStats) <==> NoViewStatsFlag !in options)
    ensures AdminFlag !in options ==> forall perm :: perm != ViewStats ==> (Has(r, perm) <==> FlagName(perm) in options)
  {
    var p := Defaults;
    if AdminFlag in options then
      p.(viewStats := true, createApiKey := true, deleteApiKey := true, viewApiKeys := true, usePowerCommands := true)
    else
      var p := if FlagName(ViewStats) in options then p.(viewStats := true) else p;
      var p := if NoViewStatsFlag in options then p.(viewStats := false) else p;
      var p := if FlagName(CreateApiKey) in options then p.(createApiKey := true) else p;
      var p := if FlagName(DeleteApiKey) in options then p.(deleteApiKey := true) else p;
      var p := if FlagName(ViewApiKeys) in options then p.(viewApiKeys := true) else p;
      if FlagName(UsePowerCommands) in options then p.(usePowerCommands := true) else p
  }

  predicate KnownFlag(arg: string) {
    arg == AdminFlag || arg == NoViewStatsFlag || exists perm :: FlagName(perm) == arg
  }

  /** Unknown flags change nothing, wherever they appear. */
  lemma UnknownFlagIgnored(options: seq<string>, arg: string)
    requires !KnownFlag(arg)
    ensures ResolvePermissions(options + [arg]) == ResolvePermissions(options)
  {
    var a, b := ResolvePermissions(options + [arg]), ResolvePermissions(options);
    assert forall x :: x in options + [arg] && x != arg ==> x in options;
    assert forall perm :: Has(a, perm) == Has(b, perm);
  }

  /** A caller-complete permissions object, as `createApiKey` receives it from here. */
  function AsPartial(p: Permissions): (r: PartialPermissions)
    ensures forall perm :: Get(r, perm) == Value(Has(p, perm))
  {
    PartialPermissions(Value(p.viewStats), Value(p.createApiKey), Value(p.deleteApiKey),
                       Value(p.viewApiKeys), Value(p.usePowerCommands))
  }

  /** The outside world of one invocation: the key file, whether writing it
      succeeds, and the oracles `createApiKey` draws from. */
  datatype World = World(store: Store, writeOk: bool, uuid: string, mix: nat -> int, now: int)

  /** The exit status, and the key list written back, if any. */
  datatype Exit = Exit(code: nat, written: Option<seq<Key>>)

  /** `createKey`: a missing name exits 1 before anything is created. */
  function CreateCommand(args: seq<string>, w: World): (r: Exit)
    ensures FirstName(args) == "" ==> r == Exit(1, None)
    ensures r.code == 0 <==> FirstName(args) != "" && w.writeOk
    ensures r.code == 0 ==>
      var c := CreateKey(FirstName(args), AsPartial(ResolvePermissions(Seqs.Filter(IsOption, args))),
                         w.uuid, w.mix, w.now, w.store, true);
      r.written == Some(c.value.stored) && c.value.key.name == FirstName(args)
  {
    var name := FirstName(args);
    if name == "" then Exit(1, None)
    else
      var permissions := ResolvePermissions(Seqs.Filter(IsOption, args));
      match CreateKey(name, AsPartial(permissions), w.uuid, w.mix, w.now, w.store, w.writeOk)
      case Ok(c) => Exit(0, Some(c.stored))
      case Err(_) => Exit(1, None)
  }

  /** `deleteKey`: the identifier is the first argument; a missing one, or one that
      names no key, exits 1. */
  function DeleteCommand(args: seq<string>, w: World): (r: Exit)
    ensures |args| == 0 || args[0] == "" ==> r == Exit(1, None)
    ensures r.code == 0 <==> |args| > 0 && args[0] != "" && DeleteKey(w.store, args[0], w.writeOk).ok
    ensures r.code == 0 ==> r.written == DeleteKey(w.store, args[0], w.writeOk).written
    ensures r.code != 0 ==> r.written.None?
  {
    if |args| == 0 || args[0] == "" then Exit(1, None)
    else
      var d := DeleteKey(w.store, args[0], w.writeOk);
      if d.ok then Exit(0, d.written) else Exit(1, None)
  }

  /** `main`: only `create`, `list` and `delete` dispatch; anything else, a missing
      command included, prints the usage and exits 1. `list` never fails, since an
      unreadable file lists as empty. */
  function Dispatch(command: Option<string>, args: seq<string>, w: World): (r: Exit)
    ensures command !in {Some("create"), Some("list"), Some("delete")} ==> r == Exit(1, None)
    ensures command == Some("list") ==> r == Exit(0, None)
    ensures r.written.Some? ==> r.code == 0 && command in {Some("create"), Some("delete")}
  {
    match command
    case Some("create") => CreateCommand(args, w)
    case Some("list") => Exit(0, None)
    case Some("delete") => DeleteCommand(args, w)
    case _ => Exit(1, None)
  }

  /** Once `delete <key>` has succeeded, presenting that key string to the server
      is answered 401 "Invalid API key.", whatever permissions are required. */
  lemma DeletedKeyRejected(args: seq<string>, w: World, required: Option<seq<Perm>>)
    requires Dispatch(Some("delete"), args, w).code == 0
    ensures var written := Dispatch(Some("delete"), args, w).written.value;
      Auth.Authenticate(required, Auth.Request(Some(args[0]), None, None), Loaded(written))
        == Auth.Unauthorized(Auth.InvalidKeyMessage)
  {
    var written := Dispatch(Some("delete"), args, w).written.value;
    SurvivorsSpec(w.store.keys, args[0]);
    forall i | 0 <= i < |written| ensures written[i].key != args[0] {
      assert written[i] in written;
    }
  }

  /** `create` followed by `delete <uuid>` of the key it made writes back exactly
      the list there was before, provided no earlier entry is named by that uuid
      (`randomUUID` never returns the empty string). */
  lemma CreateThenDeleteRestores(args: seq<string>, w: World, keys: seq<Key>)
    requires w.store == Loaded(keys) && w.writeOk && FirstName(args) != "" && w.uuid != ""
    requires forall i :: 0 <= i < |keys| ==> !Matches(keys[i], w.uuid)
    ensures Dispatch(Some("create"), args, w).written.Some?
    ensures var created := Dispatch(Some("create"), args, w).written.value;
      Dispatch(Some("delete"), [w.uuid], w.(store := Loaded(created))) == Exit(0, Some(keys))
  {
    var created := Dispatch(Some("create"), args, w).written.value;
    var k := created[|keys|];
    assert created == keys + [k];
    assert Matches(k, w.uuid);
    Seqs.FilterSnoc(k => !Matches(k, w.uuid), keys, k);
    Seqs.FilterKeepsAll(k => !Matches(k, w.uuid), keys);
    assert Survivors(created, w.uuid) == keys;
  }
}
