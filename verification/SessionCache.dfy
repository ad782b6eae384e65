/**
  The vCenter session cache: one session for each key, replaced when inactive, with every login accounted for.
  `GetOrCreate` holds a mutex throughout, so calls are steps; what vCenter answers is an input of each call.
 */
module SessionCache {
  import opened Common
  import opened Text

  predicate IsHex(c: char) {
    '0' <= c <= '9' || 'a' <= c <= 'f'
  }

  /** A SHA-256 digest printed with `%x`. */
  type Digest = s: string | |s| == 64 && forall i :: 0 <= i < |s| ==> IsHex(s[i])
    witness seq(64, _ => '0')

  /** The request parameters; `passwordHash` stands for the digest of the password. */
  datatype Params = Params(server: string, datacenter: string, username: string, passwordHash: Digest, thumbprint: string)

  function SessionKey(p: Params): string {
    p.server + "#" + p.datacenter + "#" + p.username + "#" + p.passwordHash
  }

  /** A session: its two logins, and the parameters it was created with. */
  datatype Session = Session(soap: nat, rest: nat, params: Params)

  /** What vCenter answers during one call. */
  datatype Backend = Backend(
    soapActive: bool, restActive: bool,        // state of a cached session
    urlParses: bool, soapLogin: bool, restLogin: bool, datacenterFound: bool)

  /** Logins are numbered; the sets hold the logins made and those for which a logout was attempted. */
  datatype State = State(
    cache: map<string, Session>, nextLogin: nat,
    soapLogins: set<nat>, restLogins: set<nat>, soapLogouts: set<nat>, restLogouts: set<nat>)

  const INITIAL := State(map[], 0, {}, {}, {}, {})

  function LogoutBoth(s: State, session: Session): State {
    s.(restLogouts := s.restLogouts + {session.rest}, soapLogouts := s.soapLogouts + {session.soap})
  }

  predicate Reusable(s: State, p: Params, b: Backend) {
    SessionKey(p) in s.cache && b.soapActive && b.restActive
  }

  /** The state after closing an inactive cached session. */
  function Closed(s: State, p: Params): State {
    if SessionKey(p) in s.cache then LogoutBoth(s, s.cache[SessionKey(p)]) else s
  }

  function Open(s: State, p: Params, b: Backend): (State, Option<Session>) {
    if !b.urlParses || !b.soapLogin then (s, None)
    else
      var soap := s.nextLogin;
      var s1 := s.(soapLogins := s.soapLogins + {soap}, nextLogin := soap + 1);
      if !b.restLogin then (s1.(soapLogouts := s1.soapLogouts + {soap}), None)
      else
        var rest := soap + 1;
        var s2 := s1.(restLogins := s1.restLogins + {rest}, nextLogin := rest + 1);
        var session := Session(soap, rest, p);
        if p.datacenter != "" && !b.datacenterFound then (LogoutBoth(s2, session), None)
        else (s2.(cache := s2.cache[SessionKey(p) := session]), Some(session))
  }

  function Step(s: State, p: Params, b: Backend): (State, Option<Session>) {
    if Reusable(s, p, b) then (s, Some(s.cache[SessionKey(p)])) else Open(Closed(s, p), p, b)
  }

  class Cache {
    var sessions: map<string, Session>
    var nextLogin: nat
    var soapLogins: set<nat>
    var restLogins: set<nat>
    var soapLogouts: set<nat>
    var restLogouts: set<nat>

    function View(): State reads this {
      State(sessions, nextLogin, soapLogins, restLogins, soapLogouts, restLogouts)
    }

    constructor ()
      ensures View() == INITIAL
    {
      sessions, nextLogin, soapLogins, restLogins, soapLogouts, restLogouts := map[], 0, {}, {}, {}, {};
    }

    /** None is an error. */
    method GetOrCreate(p: Params, b: Backend) returns (r: Option<Session>)
      modifies this
      ensures (View(), r) == Step(old(View()), p, b)
    {
      var key := SessionKey(p);
      if key in sessions {
        var s := sessions[key];
        if b.soapActive && b.restActive {
          return Some(s);
        }
        restLogouts := restLogouts + {s.rest};
        soapLogouts := soapLogouts + {s.soap};
      }
      if !b.urlParses || !b.soapLogin {
        return None;
      }
      var soap := nextLogin;
      soapLogins, nextLogin := soapLogins + {soap}, nextLogin + 1;
      if !b.restLogin {
        soapLogouts := soapLogouts + {soap};
        return None;
      }
      var rest := nextLogin;
      restLogins, nextLogin := restLogins + {rest}, nextLogin + 1;
      if p.datacenter != "" && !b.datacenterFound {
        restLogouts := restLogouts + {rest};
        soapLogouts := soapLogouts + {soap};
        return None;
      }
      var session := Session(soap, rest, p);
      sessions := sessions[key := session];
      return Some(session);
    }
  }

  // ---------------------------------------------------------------------------------------------
  // Accounting
  // ---------------------------------------------------------------------------------------------

  ghost predicate CachedSoap(s: State, login: nat) {
    exists key :: key in s.cache && s.cache[key].soap == login
  }

  ghost predicate CachedRest(s: State, login: nat) {
    exists key :: key in s.cache && s.cache[key].rest == login
  }

  /** Every login belongs to a cached session or had a logout attempted, and cached sessions sit under their own key. */
  ghost predicate Accounted(s: State) {
    && (forall login :: login in s.soapLogins ==> CachedSoap(s, login) || login in s.soapLogouts)
    && (forall login :: login in s.restLogins ==> CachedRest(s, login) || login in s.restLogouts)
    && (forall key :: key in s.cache ==>
          && SessionKey(s.cache[key].params) == key
          && s.cache[key].soap in s.soapLogins && s.cache[key].rest in s.restLogins)
    && (forall login :: login in s.soapLogins ==> login < s.nextLogin)
    && (forall login :: login in s.restLogins ==> login < s.nextLogin)
  }

  /** Every login that is not in the cache under this key stays accounted for when the key is overwritten or not. */
  lemma OpenAccounts(s: State, p: Params, b: Backend)
    requires Accounted(s)
    requires SessionKey(p) in s.cache ==>
               s.cache[SessionKey(p)].soap in s.soapLogouts && s.cache[SessionKey(p)].rest in s.restLogouts
    ensures Accounted(Open(s, p, b).0)
  {
    var t := Open(s, p, b).0;
    forall login | login in t.soapLogins ensures CachedSoap(t, login) || login in t.soapLogouts {
      OpenSoap(s, p, b, login);
    }
    forall login | login in t.restLogins ensures CachedRest(t, login) || login in t.restLogouts {
      OpenRest(s, p, b, login);
    }
  }

  lemma OpenSoap(s: State, p: Params, b: Backend, login: nat)
    requires Accounted(s) && login in Open(s, p, b).0.soapLogins
    requires SessionKey(p) in s.cache ==> s.cache[SessionKey(p)].soap in s.soapLogouts
    ensures CachedSoap(Open(s, p, b).0, login) || login in Open(s, p, b).0.soapLogouts
  {
    var t, key := Open(s, p, b).0, SessionKey(p);
    if login in s.soapLogins {
      if CachedSoap(s, login) {
        var k :| k in s.cache && s.cache[k].soap == login;
        assert k == key || (k in t.cache && t.cache[k] == s.cache[k]);
      }
    } else if login !in t.soapLogouts {
      assert key in t.cache && t.cache[key].soap == login;
    }
  }

  lemma OpenRest(s: State, p: Params, b: Backend, login: nat)
    requires Accounted(s) && login in Open(s, p, b).0.restLogins
    requires SessionKey(p) in s.cache ==> s.cache[SessionKey(p)].rest in s.restLogouts
    ensures CachedRest(Open(s, p, b).0, login) || login in Open(s, p, b).0.restLogouts
  {
    var t, key := Open(s, p, b).0, SessionKey(p);
    if login in s.restLogins {
      if CachedRest(s, login) {
        var k :| k in s.cache && s.cache[k].rest == login;
        assert k == key || (k in t.cache && t.cache[k] == s.cache[k]);
      }
    } else if login !in t.restLogouts {
      assert key in t.cache && t.cache[key].rest == login;
    }
  }

  lemma ClosedAccounts(s: State, p: Params)
    requires Accounted(s)
    ensures Accounted(Closed(s, p))
  {
    var t := Closed(s, p);
    forall login | login in t.soapLogins ensures CachedSoap(t, login) || login in t.soapLogouts {
      assert CachedSoap(s, login) == CachedSoap(t, login);
    }
    forall login | login in t.restLogins ensures CachedRest(t, login) || login in t.restLogouts {
      assert CachedRest(s, login) == CachedRest(t, login);
    }
  }

  lemma StepAccounts(s: State, p: Params, b: Backend)
    requires Accounted(s)
    ensures var (t, r) := Step(s, p, b);
            && Accounted(t)
            && (r.Some? ==> SessionKey(p) in t.cache && t.cache[SessionKey(p)] == r.value)
  {
    if !Reusable(s, p, b) {
      ClosedAccounts(s, p);
      OpenAccounts(Closed(s, p), p, b);
    }
  }

  /**
    What one call does: it returns the cached session, and changes nothing, exactly when both its logins are active; else
    it logs out of both and opens a new session exactly when every step towards it succeeds.
   */
  lemma StepExact(s: State, p: Params, b: Backend)
    requires Accounted(s)
    ensures var (t, r) := Step(s, p, b);
            var cached := SessionKey(p) in s.cache;
            && (cached ==>
                  var known := s.cache[SessionKey(p)];
                  && (r == Some(known) <==> b.soapActive && b.restActive)
                  && (r == Some(known) ==> t == s)
                  && (r != Some(known) ==> known.soap in t.soapLogouts && known.rest in t.restLogouts))
            && (!(cached && b.soapActive && b.restActive) ==>
                  && (r.Some? <==> b.urlParses && b.soapLogin && b.restLogin && (p.datacenter == "" || b.datacenterFound))
                  && (r.Some? ==>
                        && r.value.params == p && t.cache == s.cache[SessionKey(p) := r.value]
                        && r.value.soap !in s.soapLogins && r.value.rest !in s.restLogins
                        && t.soapLogins == s.soapLogins + {r.value.soap} && t.restLogins == s.restLogins + {r.value.rest})
                  && (r.None? ==> t.cache == s.cache))
  {
  }

  datatype Call = Call(params: Params, backend: Backend)

  function RunCalls(s: State, calls: seq<Call>): State
    decreases |calls|
  {
    if calls == [] then s else RunCalls(Step(s, calls[0].params, calls[0].backend).0, calls[1..])
  }

  /** Over every sequence of calls and backend failures no login leaks. */
  lemma {:induction false} NoLoginLeaks(s: State, calls: seq<Call>)
    requires Accounted(s)
    ensures Accounted(RunCalls(s, calls))
    decreases |calls|
  {
    if calls != [] {
      StepAccounts(s, calls[0].params, calls[0].backend);
      NoLoginLeaks(Step(s, calls[0].params, calls[0].backend).0, calls[1..]);
    }
  }

  // ---------------------------------------------------------------------------------------------
  // Keys
  // ---------------------------------------------------------------------------------------------

  /** Equal concatenations with a separator that occurs in neither front part split at the same place. */
  lemma {:induction false} SplitFirst(a: string, x: string, b: string, y: string)
    requires '#' !in a && '#' !in b && a + "#" + x == b + "#" + y
    ensures a == b && x == y
  {
    var s, t := a + "#" + x, b + "#" + y;
    assert s == t && s[0] == t[0];
    assert s[0] == if a == [] then '#' else a[0];
    assert t[0] == if b == [] then '#' else b[0];
    if a == [] {
      assert x == s[1..];
      assert b == [];
      assert y == t[1..];
    } else {
      assert a[0] in a;
      assert b != [];
      assert s[1..] == a[1..] + "#" + x && t[1..] == b[1..] + "#" + y;
      SplitFirst(a[1..], x, b[1..], y);
      assert a == [a[0]] + a[1..] && b == [b[0]] + b[1..];
    }
  }

  /** Everything the key is made of agrees. */
  predicate SameFields(p: Params, q: Params) {
    p.server == q.server && p.datacenter == q.datacenter && p.username == q.username && p.passwordHash == q.passwordHash
  }

  /** For servers and datacenters without '#', equal keys mean equal server, datacenter, user and password hash. */
  lemma KeysSeparate(p: Params, q: Params)
    requires '#' !in p.server && '#' !in p.datacenter && '#' !in q.server && '#' !in q.datacenter
    requires SessionKey(p) == SessionKey(q)
    ensures SameFields(p, q)
  {
    var userP, userQ := p.username + "#" + p.passwordHash, q.username + "#" + q.passwordHash;
    assert SessionKey(p) == p.server + "#" + (p.datacenter + "#" + userP);
    assert SessionKey(q) == q.server + "#" + (q.datacenter + "#" + userQ);
    SplitFirst(p.server, p.datacenter + "#" + userP, q.server, q.datacenter + "#" + userQ);
    SplitFirst(p.datacenter, userP, q.datacenter, userQ);
    assert |userP| == |userQ|;
    assert userP[|userP| - 64..] == p.passwordHash && userQ[|userQ| - 64..] == q.passwordHash;
    assert userP[..|userP| - 65] == p.username && userQ[..|userQ| - 65] == q.username;
  }

  predicate NoSeparator(p: Params) {
    '#' !in p.server && '#' !in p.datacenter && '#' !in p.username
  }

  /** Besides its three separators, a key has those of the fields. */
  lemma SeparatorCount(p: Params)
    ensures CountOf('#', SessionKey(p)) == 3 + CountOf('#', p.server) + CountOf('#', p.datacenter) + CountOf('#', p.username)
  {
    CountOfConcat('#', p.server + "#" + p.datacenter + "#" + p.username + "#", p.passwordHash);
    CountOfConcat('#', p.server + "#" + p.datacenter + "#" + p.username, "#");
    CountOfConcat('#', p.server + "#" + p.datacenter + "#", p.username);
    CountOfConcat('#', p.server + "#" + p.datacenter, "#");
    CountOfConcat('#', p.server + "#", p.datacenter);
    CountOfConcat('#', p.server, "#");
    assert "#"[1..] == [];
    CountOfNone('#', p.passwordHash);
  }

  /** A request without '#' shares its key exactly with the requests for the same fields, whatever those contain. */
  lemma OwnKey(p: Params, q: Params)
    requires NoSeparator(p)
    ensures SessionKey(q) == SessionKey(p) <==> SameFields(p, q)
  {
    if SessionKey(q) == SessionKey(p) {
      EqualKey(p, q);
    }
  }

  lemma EqualKey(p: Params, q: Params)
    requires NoSeparator(p) && SessionKey(q) == SessionKey(p)
    ensures SameFields(p, q)
  {
    SeparatorCount(p);
    SeparatorCount(q);
    CountOfNone('#', p.server);
    CountOfNone('#', p.datacenter);
    CountOfNone('#', p.username);
    if '#' in q.server {
      CountOfSome('#', q.server);
    }
    if '#' in q.datacenter {
      CountOfSome('#', q.datacenter);
    }
    KeysSeparate(p, q);
  }

  /** The request that moves a '#' of one field to the border with the next field. */
  function Shifted(p: Params): Params {
    if '#' in p.server then
      p.(server := Before('#', p.server), datacenter := After('#', p.server) + "#" + p.datacenter)
    else if '#' in p.datacenter then
      p.(datacenter := Before('#', p.datacenter), username := After('#', p.datacenter) + "#" + p.username)
    else
      p.(datacenter := p.datacenter + "#" + Before('#', p.username), username := After('#', p.username))
  }

  /** Only the three fields joined by separators matter to the key. */
  lemma KeyOfJoined(p: Params, q: Params)
    requires p.passwordHash == q.passwordHash
    requires p.server + "#" + p.datacenter + "#" + p.username == q.server + "#" + q.datacenter + "#" + q.username
    ensures SessionKey(p) == SessionKey(q)
  {
  }

  lemma JoinedAgain(server: string, datacenter: string, username: string)
    ensures server + "#" + datacenter + "#" + username == server + "#" + (datacenter + "#" + username)
  {
  }

  /** A request with '#' in server, datacenter or user shares its key with a different one. */
  lemma SharedKey(p: Params)
    requires !NoSeparator(p)
    ensures SessionKey(Shifted(p)) == SessionKey(p) && !SameFields(Shifted(p), p)
  {
    var q := Shifted(p);
    if '#' in p.server {
      BeforeAfter('#', p.server);
      assert q.server + "#" + q.datacenter == p.server + "#" + p.datacenter;
    } else {
      BeforeAfter('#', if '#' in p.datacenter then p.datacenter else p.username);
      JoinedAgain(p.server, p.datacenter, p.username);
      JoinedAgain(q.server, q.datacenter, q.username);
      assert q.datacenter + "#" + q.username == p.datacenter + "#" + p.username;
    }
    KeyOfJoined(p, q);
  }

  /** The exact condition: a key identifies server, datacenter, user and password hash if and only if no field has a '#'. */
  lemma KeyExact(p: Params)
    ensures (forall q :: SessionKey(q) == SessionKey(p) ==> SameFields(p, q)) <==> NoSeparator(p)
  {
    if NoSeparator(p) {
      forall q | SessionKey(q) == SessionKey(p) ensures SameFields(p, q) {
        OwnKey(p, q);
      }
    } else {
      SharedKey(p);
      assert SessionKey(Shifted(p)) == SessionKey(p);
    }
  }

  ghost predicate HashFree(calls: seq<Call>) {
    forall i :: 0 <= i < |calls| ==> '#' !in calls[i].params.server && '#' !in calls[i].params.datacenter
  }

  ghost predicate HashFreeCache(s: State) {
    forall key :: key in s.cache ==> '#' !in s.cache[key].params.server && '#' !in s.cache[key].params.datacenter
  }

  lemma {:induction false} CacheStaysHashFree(s: State, calls: seq<Call>)
    requires HashFreeCache(s) && HashFree(calls)
    ensures HashFreeCache(RunCalls(s, calls))
    decreases |calls|
  {
    if calls != [] {
      assert HashFree([calls[0]] + calls[1..]);
      CacheStaysHashFree(Step(s, calls[0].params, calls[0].backend).0, calls[1..]);
    }
  }

  /**
    After any calls, the session returned for a request is the cached one for its key, and was opened for the same
    server, datacenter, user and password.
   */
  lemma SessionsAreSeparate(calls: seq<Call>, p: Params, b: Backend)
    requires HashFree(calls) && '#' !in p.server && '#' !in p.datacenter
    ensures var (t, r) := Step(RunCalls(INITIAL, calls), p, b);
            r.Some? ==>
              && SessionKey(p) in t.cache && t.cache[SessionKey(p)] == r.value
              && SameFields(r.value.params, p)
  {
    var s := RunCalls(INITIAL, calls);
    NoLoginLeaks(INITIAL, calls);
    CacheStaysHashFree(INITIAL, calls);
    StepAccounts(s, p, b);
    var (t, r) := Step(s, p, b);
    if r.Some? {
      KeysSeparate(r.value.params, p);
    }
  }

  /** Whatever was called before, a request never gets a session that was opened for other parameters. */
  ghost predicate AlwaysOwn(p: Params) {
    forall calls, b :: OwnAfter(calls, p, b)
  }

  ghost predicate OwnAfter(calls: seq<Call>, p: Params, b: Backend) {
    var r := Step(RunCalls(INITIAL, calls), p, b).1;
    r.Some? ==> SameFields(r.value.params, p)
  }

  /** Over all histories, a request is safe from the sessions of others if and only if none of its fields has a '#'. */
  lemma SeparationExact(p: Params)
    ensures AlwaysOwn(p) <==> NoSeparator(p)
  {
    if NoSeparator(p) {
      forall calls, b ensures OwnAfter(calls, p, b) {
        NoLoginLeaks(INITIAL, calls);
        StepAccounts(RunCalls(INITIAL, calls), p, b);
        var r := Step(RunCalls(INITIAL, calls), p, b).1;
        if r.Some? {
          OwnKey(p, r.value.params);
        }
      }
    } else {
      SharedKey(p);
      var up := Backend(true, true, true, true, true, true);
      var calls := [Call(Shifted(p), up)];
      assert calls[1..] == [];
      assert RunCalls(INITIAL, calls) == Step(INITIAL, Shifted(p), up).0;
      assert !OwnAfter(calls, p, up);
    }
  }
}
