/** The `authenticate` middleware of functions/auth.ts: where the presented key is
    taken from, how it is looked up, and the 401 / 403 / pass decision. */
module Auth {
  import opened Wrappers
  import opened Text
  import opened Keys
  import Seqs

  /** What the middleware reads from a request; `None` for an absent header or
      query parameter. */
  datatype Request = Request(xApiKey: Option<string>, authorization: Option<string>, queryApiKey: Option<string>)

  /** A present, non-empty string: JavaScript truthiness for a string-or-undefined. */
  predicate Truthy(s: Option<string>) {
    s.Some? && s.value != []
  }

  const BearerPrefix: string := "Bearer "

  /** `authorization?.replace('Bearer ', '')`. */
  function Bearer(req: Request): Option<string> {
    match req.authorization
    case None => None
    case Some(h) => Some(ReplaceFirst(h, BearerPrefix, ""))
  }

  /** The presented key, or `None` when the `||` chain ends falsy: the `x-api-key`
      header, else the `authorization` header without its first `Bearer `, else the
      `apiKey` query parameter. */
  function ExtractKey(req: Request): (r: Option<string>)
    ensures r.Some? ==> r.value != []
    ensures Truthy(req.xApiKey) ==> r == req.xApiKey
    ensures !Truthy(req.xApiKey) && Truthy(Bearer(req)) ==> r == Bearer(req)
    ensures !Truthy(req.xApiKey) && !Truthy(Bearer(req)) ==>
      r == (if Truthy(req.queryApiKey) then req.queryApiKey else None)
  {
    if Truthy(req.xApiKey) then req.xApiKey
    else if Truthy(Bearer(req)) then Bearer(req)
    else if Truthy(req.queryApiKey) then req.queryApiKey
    else None
  }

  /** A bearer token is the header with the scheme cut off. */
  lemma BearerToken(token: string, query: Option<string>)
    requires token != []
    ensures ExtractKey(Request(None, Some(BearerPrefix + token), query)) == Some(token)
  {
    var h := BearerPrefix + token;
    assert h[0..|BearerPrefix|] == BearerPrefix;
    assert FirstOccurrence(h, BearerPrefix, 0);
    var r := ReplaceFirst(h, BearerPrefix, "");
    assert r == h[..0] + "" + h[|BearerPrefix|..];
    assert h[|BearerPrefix|..] == token;
    assert r == token;
    assert Bearer(Request(None, Some(h), query)) == Some(token);
  }

  /** `keys.find(k => k.key === apiKey)`. */
  function FindKey(keys: seq<Key>, apiKey: string): (r: Option<Key>)
    ensures r.Some? ==> r.value in keys && r.value.key == apiKey
    ensures r.None? <==> forall i :: 0 <= i < |keys| ==> keys[i].key != apiKey
    ensures r.Some? ==> exists i :: 0 <= i < |keys| && keys[i] == r.value && forall j :: 0 <= j < i ==> keys[j].key != apiKey
  {
    if keys == [] then None
    else if keys[0].key == apiKey then Some(keys[0])
    else
      var r := FindKey(keys[1..], apiKey);
      assert forall i :: 1 <= i < |keys| ==> keys[i] == keys[1..][i - 1];
      r
  }

  /** The required permissions, in order, whose flag on the key is false. */
  function Missing(required: seq<Perm>, p: Permissions): seq<Perm> {
    Seqs.Filter(perm => !Has(p, perm), required)
  }

  lemma MissingSpec(required: seq<Perm>, p: Permissions)
    ensures Seqs.IsSubseq(Missing(required, p), required)
    ensures forall perm :: perm in Missing(required, p) <==> perm in required && !Has(p, perm)
    ensures Missing(required, p) == [] <==> forall i :: 0 <= i < |required| ==> Has(p, required[i])
  {
    Seqs.FilterSpec(perm => !Has(p, perm), required);
    forall i | 0 <= i < |required| && Missing(required, p) == [] ensures Has(p, required[i]) {
      assert required[i] in required;
    }
  }

  const NoKeyMessage: string := "No API key provided."
  const InvalidKeyMessage: string := "Invalid API key."

  /** The three ways a request leaves the middleware. */
  datatype Outcome =
    | Unauthorized(message: string)                   // 401
    | Forbidden(required: seq<Perm>, missing: seq<Perm>)  // 403
    | Pass(key: Key)                                  // `next()` with the key attached

  /** `authenticate(requiredPermissions)` applied to one request against the key file. */
  function Authenticate(required: Option<seq<Perm>>, req: Request, store: Store): (r: Outcome)
    ensures r == Unauthorized(NoKeyMessage) <==> ExtractKey(req).None?
    ensures r == Unauthorized(InvalidKeyMessage) <==>
      ExtractKey(req).Some? && FindKey(LoadKeys(store), ExtractKey(req).value).None?
    ensures r.Unauthorized? ==> r.message == NoKeyMessage || r.message == InvalidKeyMessage
    ensures store.Unreadable? ==> r.Unauthorized?
    ensures r.Forbidden? ==>
      && required.Some? && r.required == required.value
      && r.missing != []
      && ExtractKey(req).Some?
      && FindKey(LoadKeys(store), ExtractKey(req).value).Some?
      && r.missing == Missing(required.value, FindKey(LoadKeys(store), ExtractKey(req).value).value.permissions)
    ensures r.Pass? <==>
      && ExtractKey(req).Some?
      && FindKey(LoadKeys(store), ExtractKey(req).value).Some?
      && (required.None? || Missing(required.value, FindKey(LoadKeys(store), ExtractKey(req).value).value.permissions) == [])
    ensures r.Pass? ==> r.key in LoadKeys(store) && Truthy(Some(r.key.key)) && Some(r.key.key) == ExtractKey(req)
  {
    match ExtractKey(req)
    case None => Unauthorized(NoKeyMessage)
    case Some(apiKey) =>
      match FindKey(LoadKeys(store), apiKey)
      case None => Unauthorized(InvalidKeyMessage)
      case Some(found) =>
        if required.Some? && |required.value| > 0 then
          var missing := Missing(required.value, found.permissions);
          if |missing| > 0 then Forbidden(required.value, missing) else Pass(found)
        else Pass(found)
  }

  /** A key just created, presented in `x-api-key`, passes for every permission it
      was granted, provided no earlier entry carries the same key string. */
  lemma CreatedKeyAuthenticates(name: string, permissions: PartialPermissions, uuid: string, mix: nat -> int,
                                now: int, store: Store, required: seq<Perm>)
    requires forall i :: 0 <= i < |LoadKeys(store)| ==> LoadKeys(store)[i].key != MakeId(DefaultKeyLength, mix)
    requires forall i :: 0 <= i < |required| ==> Get(permissions, required[i]) == Value(true)
    ensures
      var c := CreateKey(name, permissions, uuid, mix, now, store, true);
      Authenticate(Some(required), Request(Some(c.value.key.key), None, None), Loaded(c.value.stored))
        == Pass(c.value.key)
  {
    var c := CreateKey(name, permissions, uuid, mix, now, store, true);
    var keys := c.value.stored;
    assert keys[|keys| - 1] == c.value.key;
    assert FindKey(keys, c.value.key.key) == Some(c.value.key);
    MissingSpec(required, c.value.key.permissions);
  }
}
