/** Signing keys from a static key or from a JWKS endpoint (mcpserver/auth.go:143-238). The mutex makes
    requests take turns, so a run is a sequence of requests; clock readings and responses are inputs. */
module KeySource {
  import opened Common

  datatype PublicKey = PublicKey(material: string)

  /** One entry of a key set. key is None when its type is unsupported or it does not decode. */
  datatype Jwk = Jwk(kid: string, key: Option<PublicKey>)

  datatype Response =
    | BadRequest(message: string)
    | Unreachable(message: string)
    | Status(code: int)
    | Malformed(message: string)
    | Document(keys: seq<Jwk>)

  datatype Error = RequestError(message: string) | FetchError(message: string) | HttpError(code: int)
                 | ParseError(message: string) | NoUsableKeys | UnknownKid(kid: string)

  /** A call of key: the key id, the clock when the age of the key set is checked, the clock when a fetch
      starts and when it has ended, and what a fetch would get. Clocks are in nanoseconds. */
  datatype Request = Request(kid: string, checked: int, started: int, finished: int, response: Response) {
    predicate Valid() {
      checked <= started <= finished
    }
  }

  /** fetched is None while no fetch was attempted; the zero time is older than any interval. */
  datatype State = State(keys: map<string, PublicKey>, fetched: Option<int>)

  const REFRESH_INTERVAL: int := 300_000_000_000

  /** The usable keys: of several with one kid the last counts. */
  function UsableKeys(jwks: seq<Jwk>): map<string, PublicKey> {
    if jwks == [] then map[]
    else
      var rest, last := UsableKeys(jwks[..|jwks| - 1]), jwks[|jwks| - 1];
      if last.key.Some? then rest[last.kid := last.key.value] else rest
  }

  /** The keys that a fetch obtains. */
  function Obtained(response: Response): map<string, PublicKey> {
    if response.Document? then UsableKeys(response.keys) else map[]
  }

  predicate NeedsRefresh(s: State, checked: int) {
    s.fetched.None? || checked - s.fetched.value >= REFRESH_INTERVAL || s.keys == map[]
  }

  function Refreshed(s: State, r: Request): State {
    var keys := Obtained(r.response);
    if keys != map[] then State(keys, Some(r.finished)) else State(s.keys, Some(r.started))
  }

  function Next(s: State, r: Request): State {
    if NeedsRefresh(s, r.checked) then Refreshed(s, r) else s
  }

  /** The answers that a key set allows. A request without a kid gets the only key. */
  ghost predicate Answers(keys: map<string, PublicKey>, kid: string, result: Result<PublicKey, Error>) {
    && (kid in keys ==> result == Ok(keys[kid]))
    && (kid !in keys && kid == "" && |keys| == 1 ==>
          result.Ok? && exists only | only in keys :: result.value == keys[only])
    && (kid !in keys && keys != map[] && !(kid == "" && |keys| == 1) ==> result == Err(UnknownKid(kid)))
    && (keys == map[] ==> result.Err?)
  }

  class KeySource {
    const fixed: Option<PublicKey>
    var keys: map<string, PublicKey>
    var fetched: Option<int>

    constructor (fixed: Option<PublicKey>)
      ensures this.fixed == fixed && Contents() == State(map[], None)
    {
      this.fixed := fixed;
      keys := map[];
      fetched := None;
    }

    ghost function Contents(): State
      reads this
    {
      State(keys, fetched)
    }

    method Key(r: Request) returns (result: Result<PublicKey, Error>)
      modifies this
      ensures fixed.Some? ==> result == Ok(fixed.value) && Contents() == old(Contents())
      ensures fixed.None? ==> Contents() == Next(old(Contents()), r) && Answers(keys, r.kid, result)
      ensures fixed.None? && keys == map[] ==> result == Err(FetchFailure(r.response))
      ensures var due := || old(fetched).None? || r.checked - old(fetched).value >= 300_000_000_000
                         || old(keys) == map[];
              var succeeds := Obtained(r.response) != map[];
              fixed.None? ==>
                && keys == (if due && succeeds then Obtained(r.response) else old(keys))
                && fetched == (if !due then old(fetched) else Some(if succeeds then r.finished else r.started))
    {
      if fixed.Some? {
        return Ok(fixed.value);
      }
      if fetched.None? || r.checked - fetched.value >= REFRESH_INTERVAL || |keys| == 0 {
        var error := RefreshLocked(r.started, r.finished, r.response);
        if error.Some? && |keys| == 0 {
          return Err(error.value);
        }
      }
      if r.kid in keys {
        return Ok(keys[r.kid]);
      }
      if r.kid == "" && |keys| == 1 {
        var only :| only in keys;
        return Ok(keys[only]);
      }
      result := Err(UnknownKid(r.kid));
    }

    method RefreshLocked(started: int, finished: int, response: Response) returns (error: Option<Error>)
      modifies this
      ensures Contents() == Refreshed(old(Contents()), Request("", started, started, finished, response))
      ensures error == if Obtained(response) != map[] then None else Some(FetchFailure(response))
      ensures match response
              case BadRequest(message) => error == Some(RequestError(message))
              case Unreachable(message) => error == Some(FetchError(message))
              case Status(code) => error == Some(HttpError(code))
              case Malformed(message) => error == Some(ParseError(message))
              case Document(jwks) => error == if UsableKeys(jwks) == map[] then Some(NoUsableKeys) else None
      ensures keys == if Obtained(response) != map[] then Obtained(response) else old(keys)
      ensures fetched == Some(if Obtained(response) != map[] then finished else started)
    {
      fetched := Some(started);
      match response {
        case BadRequest(message) =>
          return Some(RequestError(message));
        case Unreachable(message) =>
          return Some(FetchError(message));
        case Status(code) =>
          return Some(HttpError(code));
        case Malformed(message) =>
          return Some(ParseError(message));
        case Document(jwks) =>
          var usable: map<string, PublicKey> := map[];
          for i := 0 to |jwks|
            invariant usable == UsableKeys(jwks[..i])
          {
            assert jwks[..i + 1][..i] == jwks[..i];
            if jwks[i].key.Some? {
              usable := usable[jwks[i].kid := jwks[i].key.value];
            }
          }
          assert jwks[..|jwks|] == jwks;
          if |usable| == 0 {
            return Some(NoUsableKeys);
          }
          keys := usable;
          fetched := Some(finished);
          return None;
      }
    }
  }

  /** Why a fetch obtained no keys. */
  function FetchFailure(response: Response): Error {
    match response
    case BadRequest(message) => RequestError(message)
    case Unreachable(message) => FetchError(message)
    case Status(code) => HttpError(code)
    case Malformed(message) => ParseError(message)
    case Document(_) => NoUsableKeys
  }

  /** A kid is usable exactly when some entry of the document has it with a usable key; the last such entry decides. */
  lemma {:induction false} UsableKeysAre(jwks: seq<Jwk>, kid: string)
    ensures kid in UsableKeys(jwks) <==> exists i | 0 <= i < |jwks| :: jwks[i].kid == kid && jwks[i].key.Some?
    ensures forall i | 0 <= i < |jwks| && jwks[i].kid == kid && jwks[i].key.Some?
                       && (forall j | i < j < |jwks| :: jwks[j].kid == kid ==> jwks[j].key.None?) ::
              kid in UsableKeys(jwks) && UsableKeys(jwks)[kid] == jwks[i].key.value
  {
    if jwks == [] {
    } else {
      var front, last := jwks[..|jwks| - 1], jwks[|jwks| - 1];
      UsableKeysAre(front, kid);
      assert forall i | 0 <= i < |front| :: front[i] == jwks[i];
      if last.kid == kid && last.key.Some? {
        assert jwks[|jwks| - 1].kid == kid;
      }
    }
  }

  /** The state after a run of requests on a new source. */
  function Run(reqs: seq<Request>): State {
    if reqs == [] then State(map[], None) else Next(Run(reqs[..|reqs| - 1]), reqs[|reqs| - 1])
  }

  /** Requests that follow one another on one clock. */
  predicate Timed(reqs: seq<Request>) {
    && (forall i | 0 <= i < |reqs| :: reqs[i].Valid())
    && (forall i, j | 0 <= i < j < |reqs| :: reqs[i].finished <= reqs[j].checked)
  }

  /** Whether the request at i fetches. */
  predicate Attempts(reqs: seq<Request>, i: nat)
    requires i < |reqs|
  {
    NeedsRefresh(Run(reqs[..i]), reqs[i].checked)
  }

  predicate Succeeds(reqs: seq<Request>, i: nat)
    requires i < |reqs|
  {
    Attempts(reqs, i) && Obtained(reqs[i].response) != map[]
  }

  lemma RunStep(reqs: seq<Request>, i: nat)
    requires i < |reqs|
    ensures Run(reqs[..i + 1]) == Next(Run(reqs[..i]), reqs[i])
  {
    assert reqs[..i + 1][..i] == reqs[..i];
  }

  /** The key set is empty exactly when no fetch has succeeded, and otherwise holds the usable keys of
      the latest fetch that did; so it is never empty again. */
  lemma {:induction false} KeysAreLatest(reqs: seq<Request>, n: nat)
    requires n <= |reqs|
    ensures Run(reqs[..n]).keys == map[] <==> forall i | 0 <= i < n :: !Succeeds(reqs, i)
    ensures forall i | 0 <= i < n && Succeeds(reqs, i) && (forall j | i < j < n :: !Succeeds(reqs, j)) ::
              Run(reqs[..n]).keys == Obtained(reqs[i].response)
  {
    hide Obtained, Run;
    if n == 0 {
      NewRun(reqs);
    } else {
      KeysAreLatest(reqs, n - 1);
      RunStep(reqs, n - 1);
      assert Run(reqs[..n]).keys
          == if Succeeds(reqs, n - 1) then Obtained(reqs[n - 1].response) else Run(reqs[..n - 1]).keys;
      if Succeeds(reqs, n - 1) {
        assert exists i | 0 <= i < n :: Succeeds(reqs, i);
      }
    }
  }

  lemma NewRun(reqs: seq<Request>)
    ensures Run(reqs[..0]) == State(map[], None)
  {
  }

  /** Once an attempt was made, the recorded time is at or after its start. */
  lemma {:induction false} FetchedSince(reqs: seq<Request>, i: nat, n: nat)
    requires Timed(reqs) && i < n <= |reqs| && Attempts(reqs, i)
    ensures Run(reqs[..n]).fetched.Some? && reqs[i].started <= Run(reqs[..n]).fetched.value
    decreases n
  {
    hide Obtained, Run;
    RunStep(reqs, n - 1);
    if i < n - 1 {
      FetchedSince(reqs, i, n - 1);
      assert reqs[i].finished <= reqs[n - 1].checked;
    }
    assert reqs[i].Valid() && reqs[n - 1].Valid();
  }

  /** After the first success, whatever kids arrive, a fetch starts at least five minutes after every
      earlier one, successful or not. */
  lemma AttemptsApart(reqs: seq<Request>, i: nat, j: nat)
    requires Timed(reqs) && i < j < |reqs| && Attempts(reqs, i) && Attempts(reqs, j)
    requires exists k | 0 <= k < j :: Succeeds(reqs, k)
    ensures reqs[j].started - reqs[i].started >= 300_000_000_000
  {
    hide Obtained, Run;
    FetchedSince(reqs, i, j);
    KeysAreLatest(reqs, j);
    assert reqs[j].Valid();
  }

  /** The fetches among requests m to n - 1 that start in the window from..until. */
  function AttemptsIn(reqs: seq<Request>, m: nat, n: nat, from: int, until: int): nat
    requires m <= n <= |reqs|
    decreases n
  {
    if n == m then 0
    else AttemptsIn(reqs, m, n - 1, from, until) + if InWindow(reqs, n - 1, from, until) then 1 else 0
  }

  predicate InWindow(reqs: seq<Request>, i: nat, from: int, until: int)
    requires i < |reqs|
  {
    Attempts(reqs, i) && from <= reqs[i].started <= until
  }

  lemma {:induction false} LatestInWindow(reqs: seq<Request>, m: nat, n: nat, from: int, until: int) returns (i: nat)
    requires Timed(reqs) && m < n <= |reqs| && Succeeds(reqs, m) && AttemptsIn(reqs, m, n, from, until) > 0
    ensures m <= i < n && InWindow(reqs, i, from, until)
    ensures reqs[i].started >= from + (AttemptsIn(reqs, m, n, from, until) - 1) * 300_000_000_000
    decreases n
  {
    hide Attempts, Timed;
    var before := AttemptsIn(reqs, m, n - 1, from, until);
    if before == 0 {
      i := n - 1;
    } else {
      i := LatestInWindow(reqs, m, n - 1, from, until);
      if InWindow(reqs, n - 1, from, until) {
        AttemptsApart(reqs, i, n - 1);
        i := n - 1;
      }
    }
  }

  /** From the first success on, a window of length T sees at most 1 + T / 5min fetches. */
  lemma AttemptsBounded(reqs: seq<Request>, m: nat, from: int, length: nat)
    requires Timed(reqs) && m < |reqs| && Succeeds(reqs, m)
    ensures AttemptsIn(reqs, m, |reqs|, from, from + length) <= 1 + length / 300_000_000_000
  {
    hide Attempts, Timed, AttemptsIn;
    var count := AttemptsIn(reqs, m, |reqs|, from, from + length);
    if count > 0 {
      var i := LatestInWindow(reqs, m, |reqs|, from, from + length);
      assert (count - 1) * 300_000_000_000 <= length;
    }
  }

  /** The recorded time is at most the end of some earlier request. */
  lemma {:induction false} FetchedBefore(reqs: seq<Request>, n: nat)
    requires Timed(reqs) && n <= |reqs| && Run(reqs[..n]).fetched.Some?
    ensures exists k | 0 <= k < n :: Run(reqs[..n]).fetched.value <= reqs[k].finished
  {
    hide Obtained, Run;
    if n == 0 {
      NewRun(reqs);
      assert false;
    } else {
      RunStep(reqs, n - 1);
      assert reqs[n - 1].Valid();
      if Attempts(reqs, n - 1) {
        assert Run(reqs[..n]).fetched.value <= reqs[n - 1].finished;
      } else {
        FetchedBefore(reqs, n - 1);
      }
    }
  }

  /** A fetch obtains keys exactly when a document comes that has an entry with a usable key. */
  lemma {:induction false} ObtainedIs(response: Response)
    ensures Obtained(response) != map[] <==>
              response.Document? && exists i | 0 <= i < |response.keys| :: response.keys[i].key.Some?
    ensures response.Document? ==> Obtained(response) == UsableKeys(response.keys)
  {
    hide UsableKeys;
    if response.Document? {
      if i :| 0 <= i < |response.keys| && response.keys[i].key.Some? {
        UsableKeysAre(response.keys, response.keys[i].kid);
      }
      if kid :| kid in Obtained(response) {
        UsableKeysAre(response.keys, kid);
      }
    }
  }

  /** Rotated keys are picked up: when every earlier request ended at least five minutes ago and the endpoint
      has usable keys, they are the key set after the request, whatever its kid. */
  lemma {:induction false} RotationPickedUp(reqs: seq<Request>, n: nat)
    requires Timed(reqs) && n < |reqs| && reqs[n].response.Document?
    requires exists i | 0 <= i < |reqs[n].response.keys| :: reqs[n].response.keys[i].key.Some?
    requires forall k | 0 <= k < n :: reqs[n].checked - reqs[k].finished >= 300_000_000_000
    ensures Run(reqs[..n + 1]).keys == UsableKeys(reqs[n].response.keys)
  {
    ObtainedIs(reqs[n].response);
    hide Obtained, Run, Timed;
    RunStep(reqs, n);
    if Run(reqs[..n]).fetched.Some? {
      FetchedBefore(reqs, n);
    }
  }

  /** What the last fetch before a request recorded. */
  lemma {:induction false} LastRecorded(reqs: seq<Request>, i: nat, n: nat)
    requires i < n <= |reqs| && Attempts(reqs, i) && forall k | i < k < n :: !Attempts(reqs, k)
    ensures Run(reqs[..n]).fetched == Some(if Succeeds(reqs, i) then reqs[i].finished else reqs[i].started)
    decreases n
  {
    hide Obtained, Run;
    RunStep(reqs, n - 1);
    if i < n - 1 {
      LastRecorded(reqs, i, n - 1);
      assert !Attempts(reqs, n - 1);
    }
  }

  /** A request fetches exactly when no fetch has succeeded yet, or five minutes have passed since the last
      one ended, or started if it failed. */
  lemma AttemptsIff(reqs: seq<Request>, i: nat, n: nat)
    requires i < n < |reqs| && Attempts(reqs, i) && forall k | i < k < n :: !Attempts(reqs, k)
    ensures Attempts(reqs, n)
       <==> || (forall k | 0 <= k < n :: !Succeeds(reqs, k))
            || reqs[n].checked - (if Succeeds(reqs, i) then reqs[i].finished else reqs[i].started) >= 300_000_000_000
  {
    LastRecorded(reqs, i, n);
    KeysAreLatest(reqs, n);
    hide Obtained, Run, Succeeds;
  }

  /** Until the first success every request fetches, so no such bound holds before it. */
  lemma FetchesUntilSuccess(reqs: seq<Request>, n: nat)
    requires n < |reqs| && forall i | 0 <= i < n :: !Succeeds(reqs, i)
    ensures Attempts(reqs, n)
  {
    KeysAreLatest(reqs, n);
  }

  /** Whatever key is handed out was a usable key of the latest successful fetch, under the requested kid
      or, for a request without one, as its only key. */
  lemma AnswersFromLatest(reqs: seq<Request>, n: nat, result: Result<PublicKey, Error>) returns (i: nat)
    requires n < |reqs| && Answers(Run(reqs[..n + 1]).keys, reqs[n].kid, result) && result.Ok?
    ensures i <= n && Succeeds(reqs, i) && forall j | i < j <= n :: !Succeeds(reqs, j)
    ensures var keys := Obtained(reqs[i].response);
            var kid := reqs[n].kid;
            if kid in keys then result.value == keys[kid]
            else kid == "" && |keys| == 1 && exists only | only in keys :: result.value == keys[only]
  {
    hide Obtained, Run, Succeeds;
    KeysAreLatest(reqs, n + 1);
    i := LastSuccess(reqs, n + 1);
    assert Run(reqs[..n + 1]).keys == Obtained(reqs[i].response);
  }

  lemma {:induction false} LastSuccess(reqs: seq<Request>, n: nat) returns (i: nat)
    requires n <= |reqs| && exists k | 0 <= k < n :: Succeeds(reqs, k)
    ensures i < n && Succeeds(reqs, i) && forall j | i < j < n :: !Succeeds(reqs, j)
    decreases n
  {
    if Succeeds(reqs, n - 1) {
      i := n - 1;
    } else {
      i := LastSuccess(reqs, n - 1);
    }
  }
}
