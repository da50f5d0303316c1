/** The request handlers of index.ts that carry decisions: the API-key routes
    behind their `authenticate` guard, and the sniffer start/stop lifecycle with
    its two bounded packet logs. Express wiring and JSON encoding are not
    modelled. */
module Routes {
  import opened Wrappers
  import opened Text
  import opened Keys
  import Auth
  import Sniffer
  import Seqs

  // ---------------------------------------------------------------------------
  // Responses

  /** A key as the list route exposes it: everything but the key string. */
  datatype PublicKey = PublicKey(uuid: string, name: string, permissions: Permissions, createdAt: int)

  datatype Response =
    | Json(status: nat, message: string)  // `{ error }` or `{ message }`
    | KeyCreated(key: Key)                // 201 with the new key
    | KeyList(keys: seq<PublicKey>)       // 200 with the sanitized list
    | Denied(outcome: Auth.Outcome)       // what `authenticate` answered instead of `next()`

  function Status(r: Response): nat {
    match r
    case Json(status, _) => status
    case KeyCreated(_) => 201
    case KeyList(_) => 200
    case Denied(o) => if o.Forbidden? then 403 else 401
  }

  /** A response, and the key list written to the file, if any. */
  datatype Handled = Handled(response: Response, written: Option<seq<Key>>)

  /** Runs the `authenticate(required)` guard; the handler only sees a request that passes. */
  function Guarded(required: Perm, req: Auth.Request, store: Store, handler: Key -> Handled): (r: Handled)
    ensures !Auth.Authenticate(Some([required]), req, store).Pass? ==>
      r == Handled(Denied(Auth.Authenticate(Some([required]), req, store)), None)
    ensures Auth.Authenticate(Some([required]), req, store).Pass? ==>
      r == handler(Auth.Authenticate(Some([required]), req, store).key)
  {
    match Auth.Authenticate(Some([required]), req, store)
    case Pass(k) => handler(k)
    case o => Handled(Denied(o), None)
  }

  // ---------------------------------------------------------------------------
  // POST /api/keys

  /** A JSON body field that should be a string. */
  datatype StringField = NotString | Str(s: string)

  const DefaultPermissions: Permissions := Permissions(true, false, false, false, false)

  /** `{ ...defaultPermissions, ...(permissions || {}) }`: every field the caller
      sent, `null` included, overrides the default. */
  function MergePermissions(supplied: Option<PartialPermissions>): (r: PartialPermissions)
    ensures forall perm :: supplied.None? || Get(supplied.value, perm).Absent? ==>
      Get(r, perm) == Value(Has(DefaultPermissions, perm))
    ensures forall perm :: supplied.Some? && !Get(supplied.value, perm).Absent? ==>
      Get(r, perm) == Get(supplied.value, perm)
  {
    var d := PartialPermissions(Value(true), Value(false), Value(false), Value(false), Value(false));
    match supplied
    case None => d
    case Some(p) =>
      PartialPermissions(
        if p.viewStats.Absent? then d.viewStats else p.viewStats,
        if p.createApiKey.Absent? then d.createApiKey else p.createApiKey,
        if p.deleteApiKey.Absent? then d.deleteApiKey else p.deleteApiKey,
        if p.viewApiKeys.Absent? then d.viewApiKeys else p.viewApiKeys,
        if p.usePowerCommands.Absent? then d.usePowerCommands else p.usePowerCommands)
  }

  /** The permissions a key created through the route ends up with: a supplied
      boolean wins, a missing field keeps its default, and an explicit `null`
      becomes false. */
  lemma RoutePermissions(supplied: Option<PartialPermissions>, perm: Perm)
    ensures Has(Complete(MergePermissions(supplied)), perm) <==>
      if supplied.None? || Get(supplied.value, perm).Absent? then Has(DefaultPermissions, perm)
      else Get(supplied.value, perm) == Value(true)
  {
  }

  /** The world the create route sees: the key file and the oracles of `createApiKey`. */
  datatype KeyWorld = KeyWorld(store: Store, writeOk: bool, uuid: string, mix: nat -> int, now: int)

  /** The handler body of `POST /api/keys`. */
  function CreateHandler(name: StringField, permissions: Option<PartialPermissions>, w: KeyWorld): (r: Handled)
    ensures name.NotString? || name.s == "" ==> r == Handled(Json(400, "Name is required"), None)
    ensures Status(r.response) == 201 <==> name.Str? && name.s != "" && w.writeOk
    ensures Status(r.response) == 500 <==> name.Str? && name.s != "" && !w.writeOk
    ensures r.response.KeyCreated? ==>
      && r.response.key.name == name.s
      && r.written == Some(LoadKeys(w.store) + [r.response.key])
      && forall perm :: Has(r.response.key.permissions, perm) <==> Get(MergePermissions(permissions), perm) == Value(true)
    ensures !r.response.KeyCreated? ==> r.written.None?
  {
    if name.NotString? || name.s == "" then Handled(Json(400, "Name is required"), None)
    else match CreateKey(name.s, MergePermissions(permissions), w.uuid, w.mix, w.now, w.store, w.writeOk)
      case Ok(c) => Handled(KeyCreated(c.key), Some(c.stored))
      case Err(_) => Handled(Json(500, "Failed to create API key"), None)
  }

  /** `POST /api/keys` behind `authenticate(["createApiKey"])`. */
  function CreateRoute(req: Auth.Request, name: StringField, permissions: Option<PartialPermissions>, w: KeyWorld): (r: Handled)
    ensures Status(r.response) == 201 ==>
      Auth.Authenticate(Some([CreateApiKey]), req, w.store).Pass? && name.Str? && name.s != ""
    ensures w.store.Unreadable? ==> Status(r.response) == 401 && r.written.None?
  {
    Guarded(CreateApiKey, req, w.store, _ => CreateHandler(name, permissions, w))
  }

  // ---------------------------------------------------------------------------
  // GET /api/keys

  function Sanitize(k: Key): PublicKey {
    PublicKey(k.uuid, k.name, k.permissions, k.createdAt)
  }

  /** The handler body of `GET /api/keys`: every stored key, in order, without its
      key string. */
  function ListHandler(store: Store): (r: Handled)
    ensures r.response.KeyList? && r.written.None?
    ensures |r.response.keys| == |LoadKeys(store)|
    ensures forall i :: 0 <= i < |LoadKeys(store)| ==>
      && r.response.keys[i].uuid == LoadKeys(store)[i].uuid
      && r.response.keys[i].name == LoadKeys(store)[i].name
      && r.response.keys[i].permissions == LoadKeys(store)[i].permissions
      && r.response.keys[i].createdAt == LoadKeys(store)[i].createdAt
  {
    var keys := LoadKeys(store);
    Handled(KeyList(seq(|keys|, i requires 0 <= i < |keys| => Sanitize(keys[i]))), None)
  }

  // ---------------------------------------------------------------------------
  // DELETE /api/keys/:identifier

  /** The handler body of `DELETE /api/keys/:identifier`. */
  function DeleteHandler(identifier: string, store: Store, writeOk: bool): (r: Handled)
    ensures identifier == "" ==> r == Handled(Json(400, "Key identifier is required"), None)
    ensures identifier != "" ==> (Status(r.response) == 200 <==> DeleteKey(store, identifier, writeOk).ok)
    ensures identifier != "" ==> (Status(r.response) == 404 <==> !DeleteKey(store, identifier, writeOk).ok)
    ensures r.written.Some? <==> Status(r.response) == 200
  {
    if identifier == "" then Handled(Json(400, "Key identifier is required"), None)
    else
      var d := DeleteKey(store, identifier, writeOk);
      if d.ok then Handled(Json(200, "API key deleted successfully"), d.written)
      else Handled(Json(404, "API key not found"), None)
  }

  /** A 200 from the delete route: the key list shown afterwards names no key by
      that identifier, and repeating the request is answered 404 without a write. */
  lemma DeleteRouteTwice(identifier: string, keys: seq<Key>, writeOk: bool)
    requires Status(DeleteHandler(identifier, Loaded(keys), true).response) == 200
    ensures var written := DeleteHandler(identifier, Loaded(keys), true).written.value;
      && (forall i :: 0 <= i < |ListHandler(Loaded(written)).response.keys| ==>
            ListHandler(Loaded(written)).response.keys[i].uuid != identifier)
      && DeleteHandler(identifier, Loaded(written), writeOk) == Handled(Json(404, "API key not found"), None)
  {
    DeleteTwiceFails(keys, identifier, writeOk);
    var written := DeleteHandler(identifier, Loaded(keys), true).written.value;
    ListAfterDelete(Loaded(keys), identifier);
    assert forall i :: 0 <= i < |written| ==> !Matches(written[i], identifier);
  }

  // ---------------------------------------------------------------------------
  // The sniffer lifecycle and the packet logs

  const RecentCap: nat := 1000
  const AllCap: nat := 100000

  /** The module-level state of index.ts: the running sniffer and the two logs. */
  datatype AppState = AppState(sniffer: Option<Sniffer.Sniffer>, recent: seq<Sniffer.Packet>, all: seq<Sniffer.Packet>)

  /** The identity of the logging callback each start registers. */
  const LogCallback: Sniffer.CallbackId := 0

  /** `POST /network/sniffer/start`. `startError` is the message `sniffer.start()`
      throws, if it does; the constructed sniffer then stays recorded but the
      logging callback is never registered. */
  function Start(st: AppState, iface: StringField, startError: Option<string>): (r: (AppState, Response))
    ensures iface.NotString? || AllWs(iface.s) ==> r == (st, Json(400, "Invalid network interface"))
    ensures iface.Str? && !AllWs(iface.s) && st.sniffer.Some? ==> r == (st, Json(400, "Sniffer is already running"))
    ensures iface.Str? && !AllWs(iface.s) && st.sniffer.None? ==>
      && r.0.sniffer.Some?
      && r.0.sniffer.value.device == Trim(iface.s)
      && r.0.recent == st.recent && r.0.all == st.all
      && (startError.Some? ==> r.1 == Json(500, startError.value) && r.0.sniffer.value.callbacks == [])
      && (startError.None? ==> Status(r.1) == 200 && r.0.sniffer.value.callbacks == [LogCallback])
  {
    if iface.NotString? || Trim(iface.s) == [] then (st, Json(400, "Invalid network interface"))
    else if st.sniffer.Some? then (st, Json(400, "Sniffer is already running"))
    else
      var device := Trim(iface.s);
      var s := Sniffer.New(device);
      if startError.Some? then (st.(sniffer := Some(s)), Json(500, startError.value))
      else (st.(sniffer := Some(Sniffer.OnPacket(s, LogCallback))), Json(200, "Network sniffer started on " + device))
  }

  /** `POST /network/sniffer/stop`. `stopError` is the message `sniffer.stop()`
      throws, if it does; the sniffer then stays recorded as running. */
  function Stop(st: AppState, stopError: Option<string>): (r: (AppState, Response))
    ensures st.sniffer.None? ==> r == (st, Json(400, "Sniffer is not running"))
    ensures st.sniffer.Some? && stopError.Some? ==> r == (st, Json(500, stopError.value))
    ensures st.sniffer.Some? && stopError.None? ==> r.0 == st.(sniffer := None) && Status(r.1) == 200
  {
    if st.sniffer.None? then (st, Json(400, "Sniffer is not running"))
    else if stopError.Some? then (st, Json(500, stopError.value))
    else (st.(sniffer := None), Json(200, "Network sniffer stopped"))
  }

  /** Starting and then stopping without errors gives back the state there was:
      no sniffer, the logs untouched. */
  lemma StartThenStop(st: AppState, iface: string)
    requires st.sniffer.None? && !AllWs(iface)
    ensures Status(Start(st, Str(iface), None).1) == 200
    ensures Stop(Start(st, Str(iface), None).0, None) == (st, Json(200, "Network sniffer stopped"))
  {
  }

  /** A start whose `sniffer.start()` throws still records the sniffer, so every
      later start is refused as already running until a stop goes through; that
      stop clears it. */
  lemma FailedStartBlocksRestart(st: AppState, iface: string, err: string, iface': StringField, e': Option<string>)
    requires st.sniffer.None? && !AllWs(iface)
    requires iface'.Str? && !AllWs(iface'.s)
    ensures var failed := Start(st, Str(iface), Some(err)).0;
      && Start(failed, iface', e') == (failed, Json(400, "Sniffer is already running"))
      && Stop(failed, None).0 == st
  {
  }

  /** `push` followed by one `shift` when the log went over its cap. */
  function Append(log: seq<Sniffer.Packet>, p: Sniffer.Packet, cap: nat): (r: seq<Sniffer.Packet>)
    requires cap > 0
    ensures 1 <= |r| <= |log| + 1
    ensures |log| <= cap ==> |r| == Seqs.Min(|log| + 1, cap)
    ensures r == (log + [p])[|log| + 1 - |r|..]
  {
    var pushed := log + [p];
    if |pushed| > cap then pushed[1..] else pushed
  }

  /** The logging callback: the packet goes to both logs, each capped by dropping
      its oldest entry. */
  function LogPacket(st: AppState, p: Sniffer.Packet): (r: AppState)
    ensures r.sniffer == st.sniffer
    ensures |r.recent| >= 1 && |r.all| >= 1
    ensures r.recent[|r.recent| - 1] == p && r.all[|r.all| - 1] == p
  {
    st.(recent := Append(st.recent, p, RecentCap), all := Append(st.all, p, AllCap))
  }

  /** `a` is what is left of `b` after dropping a prefix. */
  ghost predicate SuffixOf<T>(a: seq<T>, b: seq<T>) {
    |a| <= |b| && a == b[|b| - |a|..]
  }

  lemma SuffixSnoc<T>(a: seq<T>, b: seq<T>, x: T)
    requires SuffixOf(a, b)
    ensures SuffixOf(a + [x], b + [x])
  {
    assert (b + [x])[|b| - |a|..] == b[|b| - |a|..] + [x];
  }

  lemma SuffixTrans<T>(a: seq<T>, b: seq<T>, c: seq<T>)
    requires SuffixOf(a, b) && SuffixOf(b, c)
    ensures SuffixOf(a, c)
  {
    assert c[|c| - |b|..][|b| - |a|..] == c[|c| - |a|..];
  }

  lemma SuffixesNest<T>(a: seq<T>, b: seq<T>, c: seq<T>)
    requires SuffixOf(a, c) && SuffixOf(b, c) && |a| <= |b|
    ensures SuffixOf(a, b)
  {
    assert c[|c| - |b|..][|b| - |a|..] == c[|c| - |a|..];
  }

  /** The logs agree: the recent log is the newest `min(1000, |all|)` entries of the
      full log, which holds at most 100000. */
  ghost predicate LogsAgree(st: AppState) {
    && |st.all| <= AllCap
    && |st.recent| == Seqs.Min(RecentCap, |st.all|)
    && SuffixOf(st.recent, st.all)
  }

  lemma LogPacketKeepsAgreement(st: AppState, p: Sniffer.Packet)
    requires LogsAgree(st)
    ensures LogsAgree(LogPacket(st, p))
  {
    var r := LogPacket(st, p);
    var all' := st.all + [p];
    SuffixSnoc(st.recent, st.all, p);
    assert SuffixOf(r.recent, st.recent + [p]);
    SuffixTrans(r.recent, st.recent + [p], all');
    assert SuffixOf(r.all, all');
    SuffixesNest(r.recent, r.all, all');
  }

  /** Packets logged in order from an agreeing state keep the logs agreeing. */
  lemma {:induction false} LogManyKeepsAgreement(st: AppState, ps: seq<Sniffer.Packet>)
    requires LogsAgree(st)
    ensures LogsAgree(LogAll(st, ps))
    decreases |ps|
  {
    if ps != [] {
      LogPacketKeepsAgreement(st, ps[0]);
      LogManyKeepsAgreement(LogPacket(st, ps[0]), ps[1..]);
    }
  }

  function LogAll(st: AppState, ps: seq<Sniffer.Packet>): AppState
    decreases |ps|
  {
    if ps == [] then st else LogAll(LogPacket(st, ps[0]), ps[1..])
  }

  /** `DELETE /network/sniffer/logs`: both logs emptied, the sniffer untouched. */
  function ClearLogs(st: AppState): (r: (AppState, Response))
    ensures r.0.recent == [] && r.0.all == [] && r.0.sniffer == st.sniffer
    ensures LogsAgree(r.0)
    ensures Status(r.1) == 200
  {
    (st.(recent := [], all := []), Json(200, "All network logs cleared"))
  }

  /** `GET /network/sniffer/logs/all`: the count and the packets. */
  function AllLogs(st: AppState): (r: (nat, seq<Sniffer.Packet>))
    ensures r.0 == |r.1| && r.1 == st.all
  {
    (|st.all|, st.all)
  }

  /** While the full log has room for them, logged packets are appended to it in
      order and none is dropped. */
  lemma {:induction false} LogAllBelowCap(st: AppState, ps: seq<Sniffer.Packet>)
    requires |st.all| + |ps| <= AllCap
    ensures LogAll(st, ps).all == st.all + ps
    decreases |ps|
  {
    if ps != [] {
      var next := LogPacket(st, ps[0]);
      assert next.all == st.all + [ps[0]] by {
        AppendBelowCap(st.all, ps[0], AllCap);
      }
      var rest := LogAll(next, ps[1..]);
      assert rest.all == next.all + ps[1..] by {
        LogAllBelowCap(next, ps[1..]);
      }
      assert LogAll(st, ps) == rest;
      ConsAppend(st.all, ps);
    }
  }

  lemma ConsAppend<T>(a: seq<T>, s: seq<T>)
    requires s != []
    ensures a + [s[0]] + s[1..] == a + s
  {
    assert s == [s[0]] + s[1..];
  }

  /** Below its cap, a log only grows. */
  lemma AppendBelowCap(log: seq<Sniffer.Packet>, p: Sniffer.Packet, cap: nat)
    requires |log| < cap
    ensures Append(log, p, cap) == log + [p]
  {
  }

  /** After the logs are cleared, the all-logs route reports exactly the packets
      captured since, in order, up to the cap; the recent route shows the newest
      1000 of them. */
  lemma AllLogsAfterClear(st: AppState, ps: seq<Sniffer.Packet>)
    requires |ps| <= AllCap
    ensures var later := LogAll(ClearLogs(st).0, ps);
      && AllLogs(later) == (|ps|, ps)
      && later.recent == ps[|ps| - Seqs.Min(RecentCap, |ps|)..]
  {
    var cleared := ClearLogs(st).0;
    LogAllBelowCap(cleared, ps);
    assert cleared.all + ps == ps;
    LogManyKeepsAgreement(cleared, ps);
  }
}
