/** The `/api/facts` route of app.js: the middleware chain
    `authenticateAPIKey, verifyQuota, validateInput` followed by the handler
    that checks and filters tags and samples the facts. */
module Api {
  import opened Wrappers
  import opened Validation
  import opened Sequences
  import opened TagFilter
  import opened Sampler
  import opened Users

  /** The parts of a request the route reads: the `x-api-key` header and the
      `quant` and `tag` query parameters. */
  datatype Request = Request(apiKey: Option<string>, quant: Option<string>, tag: Option<string>)

  /** A 200 with a list of facts, or an error status with its `error` message. */
  datatype Response = FactList(facts: seq<Fact>) | ErrorReply(status: nat, error: string)

  function Status(r: Response): nat {
    if r.FactList? then 200 else r.status
  }

  const InvalidApiKeyMessage: string := "Invalid API key"
  const QuotaExceededMessage: string := "Quota exceeded"
  const QuotaFailureMessage: string := "Failed to verify quota"
  const InvalidTagMessage: string := "Invalid tag provided."

  /** What the route answers and the table it leaves behind. `readsSucceed`
      is the outcome of `verifyQuota`'s two reads; `rolls` are the shuffle's
      random draws. */
  function Respond(users: seq<User>, facts: seq<Fact>, req: Request, readsSucceed: bool, rolls: seq<nat>)
    : (out: (Response, seq<User>))
    requires WellFormed(users) && ValidRolls(rolls, |facts|)
    ensures WellFormed(out.1) && |out.1| == |users|
  {
    var auth := Authenticate(users, req.apiKey);
    if auth.0.InvalidApiKey? then (ErrorReply(401, InvalidApiKeyMessage), auth.1)
    else GateAndServe(auth.1, auth.0.userId, facts, req, readsSucceed, rolls)
  }

  /** The route once `authenticateAPIKey` has bound the request to `userId`. */
  function GateAndServe(users: seq<User>, userId: string, facts: seq<Fact>, req: Request, readsSucceed: bool, rolls: seq<nat>)
    : (out: (Response, seq<User>))
    requires WellFormed(users) && ValidRolls(rolls, |facts|)
    ensures WellFormed(out.1) && |out.1| == |users|
  {
    var gate := CheckQuota(users, userId, readsSucceed);
    match gate.0
    case QuotaExceeded => (ErrorReply(403, QuotaExceededMessage), gate.1)
    case StoreFailed => (ErrorReply(500, QuotaFailureMessage), gate.1)
    case Granted => (Serve(facts, req, rolls), gate.1)
  }

  /** The part of the route after the quota gate, which reads no store:
      `validateInput`, then the handler's tag check, filter and sample. */
  function Serve(facts: seq<Fact>, req: Request, rolls: seq<nat>): (r: Response)
    requires ValidRolls(rolls, |facts|)
    ensures Status(r) == 200 || Status(r) == 400
  {
    match ValidateInput(req.quant, req.tag)
    case Reject(message) => ErrorReply(400, message)
    case Pass =>
      match SelectFacts(facts, req.tag)
      case InvalidTag => ErrorReply(400, InvalidTagMessage)
      case Selected(selected) => FactList(Sample(selected, rolls, DecimalValue(req.quant.value)))
  }

  /** An API key no user holds is refused with 401 before anything else, and
      no counter changes; any other key gets past authentication. */
  lemma UnknownKeyRejected(users: seq<User>, facts: seq<Fact>, req: Request, readsSucceed: bool, rolls: seq<nat>)
    requires WellFormed(users) && ValidRolls(rolls, |facts|)
    ensures var out := Respond(users, facts, req, readsSucceed, rolls);
      (Status(out.0) == 401 <==> forall i :: 0 <= i < |users| ==> PropertyKey(req.apiKey) !in users[i].apiKeys)
      && (Status(out.0) == 401 ==> out == (ErrorReply(401, InvalidApiKeyMessage), users))
  {
  }

  /** The quota gate runs after authentication: for a known key, a request is
      refused with 403 exactly when the owner's `usedQuota` has reached
      `fixedQuota`, and then only the key's usage counter has moved. */
  lemma QuotaGate(users: seq<User>, facts: seq<Fact>, req: Request, rolls: seq<nat>)
    requires WellFormed(users) && ValidRolls(rolls, |facts|)
    requires FirstOwner(users, PropertyKey(req.apiKey)).Some?
    ensures var out := Respond(users, facts, req, true, rolls);
      var id := users[FirstOwner(users, PropertyKey(req.apiKey)).value].id;
      && (Status(out.0) == 403 <==> UsedQuotaOf(users, id) >= FixedQuotaOf(users, id))
      && (Status(out.0) == 403 ==> out.1 == Authenticate(users, req.apiKey).1)
  {
    var auth := Authenticate(users, req.apiKey);
    QuotaReadsUnaffectedByAuth(users, req.apiKey, auth.0.userId);
    GateRefuses(auth.1, auth.0.userId, facts, req, rolls);
    assert Respond(users, facts, req, true, rolls) == GateAndServe(auth.1, auth.0.userId, facts, req, true, rolls);
  }

  lemma GateRefuses(users: seq<User>, userId: string, facts: seq<Fact>, req: Request, rolls: seq<nat>)
    requires WellFormed(users) && ValidRolls(rolls, |facts|)
    ensures var out := GateAndServe(users, userId, facts, req, true, rolls);
      && (Status(out.0) == 403 <==> UsedQuotaOf(users, userId) >= FixedQuotaOf(users, userId))
      && (Status(out.0) == 403 ==> out.1 == users)
  {
  }

  lemma QuotaReadsUnaffectedByAuth(users: seq<User>, header: Option<string>, id: string)
    requires WellFormed(users)
    ensures var users1 := Authenticate(users, header).1;
      UsedQuotaOf(users1, id) == UsedQuotaOf(users, id) && FixedQuotaOf(users1, id) == FixedQuotaOf(users, id)
  {
    var users1 := Authenticate(users, header).1;
    IndexOfIdSameIds(users, users1, id);
  }

  /** Quota is consumed before the input is validated: a granted request
      costs one unit of `usedQuota` whatever its `quant` and `tag` are, so a
      request rejected with 400 afterwards has still used its unit. */
  lemma QuotaSpentBeforeValidation(users: seq<User>, facts: seq<Fact>, req: Request, rolls: seq<nat>)
    requires WellFormed(users) && ValidRolls(rolls, |facts|)
    requires FirstOwner(users, PropertyKey(req.apiKey)).Some?
    ensures var out := Respond(users, facts, req, true, rolls);
      var id := users[FirstOwner(users, PropertyKey(req.apiKey)).value].id;
      UsedQuotaOf(users, id) < FixedQuotaOf(users, id) ==>
        && UsedQuotaOf(out.1, id) == UsedQuotaOf(users, id) + 1
        && (ValidateInput(req.quant, req.tag).Reject? ==>
              out.0 == ErrorReply(400, ValidateInput(req.quant, req.tag).message))
  {
    var auth := Authenticate(users, req.apiKey);
    QuotaReadsUnaffectedByAuth(users, req.apiKey, auth.0.userId);
  }

  /** Once past the gate, a request whose `tag` passes the syntax check but
      names a tag no fact uses is answered 400 "Invalid tag provided.". */
  lemma UnusedTagRejected(facts: seq<Fact>, req: Request, rolls: seq<nat>, t: string)
    requires ValidRolls(rolls, |facts|)
    requires ValidateInput(req.quant, req.tag).Pass? && Present(req.tag)
    requires t in Split(req.tag.value, ',') && !TagInUse(facts, t)
    ensures Serve(facts, req, rolls) == ErrorReply(400, InvalidTagMessage)
  {
  }

  /** A request that passes authentication and the quota gate gets exactly
      the handler's answer, and the table keeps the two counter updates. */
  lemma GrantedRequestServed(users: seq<User>, facts: seq<Fact>, req: Request, rolls: seq<nat>)
    requires WellFormed(users) && ValidRolls(rolls, |facts|)
    requires FirstOwner(users, PropertyKey(req.apiKey)).Some?
    ensures var i := FirstOwner(users, PropertyKey(req.apiKey)).value;
      var out := Respond(users, facts, req, true, rolls);
      UsedQuotaOf(users, users[i].id) < FixedQuotaOf(users, users[i].id) ==>
        && out.0 == Serve(facts, req, rolls)
        && out.1 == CheckQuota(Authenticate(users, req.apiKey).1, users[i].id, true).1
  {
    var auth := Authenticate(users, req.apiKey);
    QuotaReadsUnaffectedByAuth(users, req.apiKey, auth.0.userId);
  }

  /** What a 200 carries: `min(quant, |selected|)` facts, each from its own
      position of the collection, all carrying every requested tag, and no
      repeats when the collection has none. */
  lemma SuccessfulResponse(users: seq<User>, facts: seq<Fact>, req: Request, readsSucceed: bool, rolls: seq<nat>)
    requires WellFormed(users) && ValidRolls(rolls, |facts|)
    ensures var out := Respond(users, facts, req, readsSucceed, rolls);
      out.0.FactList? ==>
        && ValidateInput(req.quant, req.tag).Pass?
        && SelectFacts(facts, req.tag).Selected?
        && |out.0.facts| == Min(DecimalValue(req.quant.value), |SelectFacts(facts, req.tag).facts|)
        && multiset(out.0.facts) <= multiset(facts)
        && (Present(req.tag) ==> forall f :: f in out.0.facts ==> HasAllTags(f, Split(req.tag.value, ',')))
        && (Distinct(facts) ==> Distinct(out.0.facts))
  {
    var out := Respond(users, facts, req, readsSucceed, rolls);
    if out.0.FactList? {
      var selected := SelectFacts(facts, req.tag).facts;
      var n := DecimalValue(req.quant.value);
      SampleProperties(selected, rolls, n);
      SubsequenceMultiset(selected, facts);
      var r := out.0.facts;
      if Present(req.tag) {
        forall f | f in r ensures HasAllTags(f, Split(req.tag.value, ',')) {
          assert multiset(r)[f] > 0;
          assert multiset(selected)[f] > 0;
        }
      }
      if Distinct(facts) {
        SubsequenceDistinct(selected, facts);
      }
    }
  }

  /** A user with `fixedQuota` 5 and `usedQuota` 4: the next request passes
      the gate and moves `usedQuota` to 5; the one after is refused with 403. */
  lemma LastUnitOfQuota(facts: seq<Fact>, req: Request, rolls: seq<nat>)
    requires ValidRolls(rolls, |facts|) && req.apiKey == Some("key")
    ensures var users := [User("alice", map["key" := KeyRecord(None)], Some(5), Some(4))];
      && "key" in users[0].apiKeys && WellFormed(users)
      && var first := Respond(users, facts, req, true, rolls);
      && Status(first.0) != 403 && UsedQuotaOf(first.1, "alice") == 5
      && Respond(first.1, facts, req, true, rolls).0 == ErrorReply(403, QuotaExceededMessage)
  {
    var users := [User("alice", map["key" := KeyRecord(None)], Some(5), Some(4))];
    assert "key" in users[0].apiKeys;
    assert WellFormed(users);
    assert FirstOwner(users, "key") == Some(0);
    QuotaSpentBeforeValidation(users, facts, req, rolls);
    QuotaGate(users, facts, req, rolls);
    var first := Respond(users, facts, req, true, rolls);
    assert FirstOwner(first.1, "key") == Some(0);
    QuotaReadsUnaffectedByAuth(users, req.apiKey, "alice");
    QuotaGate(first.1, facts, req, rolls);
  }

  /** `quant=abc` is a 400 from `validateInput`, reached only after the gate. */
  lemma MalformedQuantRejected(facts: seq<Fact>, tag: Option<string>, apiKey: Option<string>, rolls: seq<nat>)
    requires ValidRolls(rolls, |facts|)
    ensures Serve(facts, Request(apiKey, Some("abc"), tag), rolls) == ErrorReply(400, QuantMessage)
  {
    assert !IsDigit("abc"[0]);
  }

  lemma SplitTwoTags()
    ensures Split("a,b", ',') == ["a", "b"]
  {
    var tag := "a,b";
    assert Split(tag[2..], ',') == ["b"] by {
      assert tag[2..] == "b" && tag[2..][1..] == "";
      assert Split("", ',') == [""];
      assert [tag[2]] + "" == "b";
    }
    assert Split(tag[1..], ',') == ["", "b"] by {
      assert tag[1..][1..] == tag[2..];
    }
    assert [tag[0]] + "" == "a";
  }

  lemma DisjointTagsSelectNothing(facts: seq<Fact>)
    requires facts == [Fact("x", ["a"]), Fact("y", ["b"])]
    ensures SelectFacts(facts, Some("a,b")) == Selected([])
  {
    var tags := Split("a,b", ',');
    SplitTwoTags();
    assert tags == ["a", "b"];
    DisjointTagsInUse(facts);
    DisjointTagsNoCommonFact(facts);
    assert Present(Some("a,b"));
    assert SelectFacts(facts, Some("a,b")) == Selected(FilterByTags(facts, tags));
  }

  lemma DisjointTagsInUse(facts: seq<Fact>)
    requires facts == [Fact("x", ["a"]), Fact("y", ["b"])]
    ensures AllTagsInUse(facts, ["a", "b"])
  {
    assert TagInUse(facts, "a") by { assert facts[0] in facts; }
    assert TagInUse(facts, "b") by { assert facts[1] in facts; }
  }

  lemma DisjointTagsNoCommonFact(facts: seq<Fact>)
    requires facts == [Fact("x", ["a"]), Fact("y", ["b"])]
    ensures FilterByTags(facts, ["a", "b"]) == []
  {
    var tags := ["a", "b"];
    assert "b" !in facts[0].tags && "a" !in facts[1].tags;
    assert !HasAllTags(facts[0], tags) && !HasAllTags(facts[1], tags);
    FilterEmptyIff(facts, tags);
  }

  /** Each of the tags "a" and "b" is used by some fact but no fact has both:
      the answer is an empty list, not an error. */
  lemma TagsWithoutCommonFact(rolls: seq<nat>)
    requires ValidRolls(rolls, 2)
    ensures var facts := [Fact("x", ["a"]), Fact("y", ["b"])];
      Serve(facts, Request(None, Some("3"), Some("a,b")), rolls) == FactList([])
  {
    var facts := [Fact("x", ["a"]), Fact("y", ["b"])];
    DisjointTagsSelectNothing(facts);
    assert ValidateInput(Some("3"), Some("a,b")) == Pass by {
      assert IsDigitString("3") && IsTagString("a,b");
    }
    assert ValidRolls(rolls, 0);
    assert Sample<Fact>([], rolls, DecimalValue("3")) == [];
  }

  /** `/api/facts` end to end over the store object: authenticate, check the
      quota, validate, then select and sample. */
  method HandleFactsRequest(store: UserStore, facts: seq<Fact>, req: Request, readsSucceed: bool, rolls: seq<nat>)
    returns (response: Response)
    requires store.Valid() && ValidRolls(rolls, |facts|)
    modifies store
    ensures store.Valid()
    ensures (response, store.users) == Respond(old(store.users), facts, req, readsSucceed, rolls)
  {
    var auth := store.AuthenticateApiKey(req.apiKey);
    if auth.InvalidApiKey? {
      return ErrorReply(401, InvalidApiKeyMessage);
    }
    var gate := store.VerifyQuota(auth.userId, readsSucceed);
    if gate == QuotaExceeded {
      return ErrorReply(403, QuotaExceededMessage);
    } else if gate == StoreFailed {
      return ErrorReply(500, QuotaFailureMessage);
    }
    var verdict := ValidateInput(req.quant, req.tag);
    if verdict.Reject? {
      return ErrorReply(400, verdict.message);
    }
    var selection := SelectFacts(facts, req.tag);
    if selection.InvalidTag? {
      return ErrorReply(400, InvalidTagMessage);
    }
    var filteredFacts := selection.facts;
    var arr := new Fact[|filteredFacts|](i requires 0 <= i < |filteredFacts| => filteredFacts[i]);
    assert arr[..] == filteredFacts;
    var randomFacts := GetRandomElements(arr, DecimalValue(req.quant.value), rolls);
    response := FactList(randomFacts);
  }
}
