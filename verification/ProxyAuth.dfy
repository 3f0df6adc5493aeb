/** Authentication to an HTTP proxy: the state of each method, over rounds, connections and reconnects. */
module ProxyAuth {
  import opened Common

  const AUTH_DISABLED := -2
  const AUTH_FAILED := -1
  const AUTH_UNSEEN := 0
  const AUTH_AVAILABLE := 1
  const AUTH_IN_PROGRESS := 2
  // NTLM's own states.
  const NTLM_SSO_REQ := 2
  const NTLM_MANUAL := 3
  const NTLM_MANUAL_REQ := 4

  const EIO := -5
  const EAGAIN := -11
  const ENOENT := -2
  const ENOMEM := -12
  const EINVAL := -22

  /** The methods in the order they are tried. */
  const NTLM := 0
  const DIGEST := 1
  const BASIC := 2
  const METHODS := 3

  function Name(m: nat): (s: string)
    requires m < METHODS
  {
    if m == NTLM then "NTLM" else if m == DIGEST then "Digest" else "Basic"
  }

  datatype AuthState = AuthState(state: int, challenge: Option<string>)

  /** What lies outside: the single-sign-on helper, and whether a response could be computed. */
  datatype Env = Env(helperSpawns: bool, helperAnswer: int, ntlmResponds: bool, digestResponds: bool, basicFits: bool)

  datatype Response = Http(status: int, challenges: seq<string>) | Broken
  datatype Attempt = Attempt(env: Env, response: Response)

  // ---------- Counting the methods that are still enabled ----------

  predicate Retired(state: int) { state <= AUTH_FAILED }

  function Enabled(states: seq<int>): (n: nat)
    ensures n <= |states|
  {
    if states == [] then 0 else (if Retired(states[0]) then 0 else 1) + Enabled(states[1..])
  }

  /** Failed and disabled methods stay exactly as they are. */
  ghost predicate Absorbed(s: seq<int>, t: seq<int>)
  {
    |s| == |t| && forall i :: 0 <= i < |s| && Retired(s[i]) ==> t[i] == s[i]
  }

  ghost predicate RetiresOne(s: seq<int>, t: seq<int>)
  {
    |s| == |t| && exists i :: 0 <= i < |s| && !Retired(s[i]) && t[i] == AUTH_FAILED
  }

  lemma {:induction false} EnabledShrinks(s: seq<int>, t: seq<int>)
    requires Absorbed(s, t)
    ensures Enabled(t) <= Enabled(s)
    ensures RetiresOne(s, t) ==> Enabled(t) < Enabled(s)
    decreases |s|
  {
    if s != [] {
      EnabledShrinks(s[1..], t[1..]);
      if RetiresOne(s, t) {
        var i :| 0 <= i < |s| && !Retired(s[i]) && t[i] == AUTH_FAILED;
        if i > 0 {
          assert !Retired(s[1..][i - 1]) && t[1..][i - 1] == AUTH_FAILED;
        }
      }
    }
  }

  // ---------- The helper without a password ----------

  /** One step of the NTLM state machine: what is returned, and the next state. */
  function NtlmStep(was: int, hasUser: bool, hasPass: bool, challenge: Option<string>, env: Env): (r: (int, int))
  {
    if was == AUTH_AVAILABLE && !hasPass && env.helperSpawns then (0, NTLM_SSO_REQ)
    else if was == NTLM_SSO_REQ && env.helperAnswer in {0, EAGAIN} then (env.helperAnswer, NTLM_MANUAL)
    else if was in {AUTH_AVAILABLE, NTLM_SSO_REQ, NTLM_MANUAL} && hasUser && hasPass then (0, NTLM_MANUAL_REQ)
    else if was == NTLM_MANUAL_REQ && challenge.Some? && env.ntlmResponds then (0, NTLM_MANUAL_REQ)
    else (EAGAIN, AUTH_FAILED)
  }

  /** A connection on which the helper is started and then asks for another connection. */
  function HelperRound(): (attempts: seq<Attempt>)
  {
    var env := Env(true, EAGAIN, false, false, false);
    [Attempt(env, Http(407, ["NTLM"])), Attempt(env, Http(407, [])), Attempt(env, Broken)]
  }

  class Proxy {
    const auth: array<AuthState>
    const hasUser: bool
    const hasPass: bool
    const authmethodsSet: bool

    constructor (states: seq<int>, hasUser: bool, hasPass: bool, authmethodsSet: bool)
      requires |states| == METHODS
      ensures Valid() && fresh(auth) && States() == states
      ensures this.hasUser == hasUser && this.hasPass == hasPass && this.authmethodsSet == authmethodsSet
    {
      auth := new AuthState[METHODS](i requires 0 <= i < METHODS => AuthState(states[i], None));
      this.hasUser, this.hasPass, this.authmethodsSet := hasUser, hasPass, authmethodsSet;
    }

    ghost predicate Valid() { auth.Length == METHODS }

    ghost function States(): (s: seq<int>)
      requires Valid()
      reads auth
      ensures |s| == METHODS
    {
      [auth[0].state, auth[1].state, auth[2].state]
    }

    // ---------- One request ----------

    /**
     NTLM: single sign-on only without a password, then the type-1 message, then the answer to a
     challenge. A failure is final; only the helper may ask for a new connection and stay in the race.
     */
    method NtlmAuthorization(env: Env) returns (ret: int)
      requires Valid() && auth[NTLM].state > AUTH_UNSEEN
      modifies auth
      ensures forall i :: 0 <= i < METHODS && i != NTLM ==> auth[i] == old(auth[i])
      ensures auth[NTLM].challenge == old(auth[NTLM].challenge)
      ensures (ret, auth[NTLM].state) == NtlmStep(old(auth[NTLM].state), hasUser, hasPass, old(auth[NTLM].challenge), env)
    {
      if auth[NTLM].state == AUTH_AVAILABLE {
        auth[NTLM] := auth[NTLM].(state := NTLM_MANUAL);
        if !hasPass && env.helperSpawns {
          auth[NTLM] := auth[NTLM].(state := NTLM_SSO_REQ);
          return 0;
        }
      }
      if auth[NTLM].state == NTLM_SSO_REQ {
        ret := env.helperAnswer;
        auth[NTLM] := auth[NTLM].(state := NTLM_MANUAL);
        if ret == 0 || ret == EAGAIN {
          return ret;
        }
      }
      if auth[NTLM].state == NTLM_MANUAL && hasUser && hasPass {
        auth[NTLM] := auth[NTLM].(state := NTLM_MANUAL_REQ);
        return 0;
      }
      if auth[NTLM].state == NTLM_MANUAL_REQ && auth[NTLM].challenge.Some? && env.ntlmResponds {
        return 0;
      }
      auth[NTLM] := auth[NTLM].(state := AUTH_FAILED);
      return EAGAIN;
    }

    /** Digest: one answer per connection; being asked again means it was refused. */
    method DigestAuthorization(env: Env) returns (ret: int)
      requires Valid()
      modifies auth
      ensures forall i :: 0 <= i < METHODS && i != DIGEST ==> auth[i] == old(auth[i])
      ensures auth[DIGEST].challenge == old(auth[DIGEST].challenge)
      ensures ret in {0, -11, -22}
      ensures ret == 0 <==>
        (hasUser && hasPass && old(auth[DIGEST].state) >= AUTH_AVAILABLE && old(auth[DIGEST].state) != AUTH_IN_PROGRESS
         && old(auth[DIGEST].challenge).Some? && env.digestResponds)
      ensures ret == -11 <==> hasUser && hasPass && old(auth[DIGEST].state) == AUTH_IN_PROGRESS
      ensures auth[DIGEST].state == if ret == 0 then AUTH_IN_PROGRESS else if ret == -11 then AUTH_FAILED else old(auth[DIGEST].state)
    {
      if !hasUser || !hasPass {
        return EINVAL;
      }
      if auth[DIGEST].state < AUTH_AVAILABLE {
        return EINVAL;
      }
      if auth[DIGEST].state == AUTH_IN_PROGRESS {
        auth[DIGEST] := auth[DIGEST].(state := AUTH_FAILED);
        return EAGAIN;
      }
      if auth[DIGEST].challenge.None? || !env.digestResponds {
        return EINVAL;
      }
      auth[DIGEST] := auth[DIGEST].(state := AUTH_IN_PROGRESS);
      return 0;
    }

    /** Basic: refused outright unless the user chose the methods; one answer per connection. */
    method BasicAuthorization(env: Env) returns (ret: int)
      requires Valid()
      modifies auth
      ensures forall i :: 0 <= i < METHODS && i != BASIC ==> auth[i] == old(auth[i])
      ensures auth[BASIC].challenge == old(auth[BASIC].challenge)
      ensures ret in {0, -11, -22, -12}
      ensures ret == 0 <==> hasUser && hasPass && authmethodsSet && old(auth[BASIC].state) != AUTH_IN_PROGRESS && env.basicFits
      ensures ret == -11 <==> hasUser && hasPass && authmethodsSet && old(auth[BASIC].state) == AUTH_IN_PROGRESS
      ensures auth[BASIC].state == if ret == 0 then AUTH_IN_PROGRESS
        else if ret == -11 || (hasUser && hasPass && !authmethodsSet) then AUTH_FAILED else old(auth[BASIC].state)
    {
      if !hasUser || !hasPass {
        return EINVAL;
      }
      if !authmethodsSet {
        auth[BASIC] := auth[BASIC].(state := AUTH_FAILED);
        return EINVAL;
      }
      if auth[BASIC].state == AUTH_IN_PROGRESS {
        auth[BASIC] := auth[BASIC].(state := AUTH_FAILED);
        return EAGAIN;
      }
      if !env.basicFits {
        return ENOMEM;
      }
      auth[BASIC] := auth[BASIC].(state := AUTH_IN_PROGRESS);
      return 0;
    }

    /**
     Ask the methods in order for a header. Nothing retired comes back, and a request for a new
     connection retires a method for good, unless single sign-on asked for it without a password.
     */
    method ProxyAuthorization(env: Env) returns (ret: int)
      requires Valid()
      modifies auth
      ensures Absorbed(old(States()), States())
      ensures ret in {0, -11, -2}
      ensures old(auth[NTLM].state) > AUTH_UNSEEN ==>
        && (ret, auth[NTLM].state) == NtlmStep(old(auth[NTLM].state), hasUser, hasPass, old(auth[NTLM].challenge), env)
        && ret != -2 && auth[DIGEST] == old(auth[DIGEST]) && auth[BASIC] == old(auth[BASIC])
      ensures (forall i :: 0 <= i < METHODS ==> old(auth[i].state) <= AUTH_UNSEEN) ==> ret == -2 && States() == old(States())
      ensures ret == -11 ==> RetiresOne(old(States()), States()) || old(auth[NTLM].state) == NTLM_SSO_REQ
      ensures (hasPass || Retired(old(auth[NTLM].state))) && old(auth[NTLM].state) != NTLM_SSO_REQ ==> auth[NTLM].state != NTLM_SSO_REQ
    {
      ghost var s := States();
      for i := 0 to METHODS
        invariant Absorbed(s, States())
        invariant forall k :: i <= k < METHODS ==> auth[k] == old(auth[k])
        invariant i > NTLM ==> old(auth[NTLM].state) <= AUTH_UNSEEN
        invariant (forall k :: 0 <= k < METHODS ==> old(auth[k].state) <= AUTH_UNSEEN) ==> States() == s
        invariant (hasPass || Retired(old(auth[NTLM].state))) && old(auth[NTLM].state) != NTLM_SSO_REQ ==> auth[NTLM].state != NTLM_SSO_REQ
      {
        if auth[i].state > AUTH_UNSEEN {
          if i == NTLM {
            ret := NtlmAuthorization(env);
          } else if i == DIGEST {
            ret := DigestAuthorization(env);
          } else {
            ret := BasicAuthorization(env);
          }
          if ret == EAGAIN || ret == 0 {
            assert ret == EAGAIN && States()[i] == AUTH_FAILED ==> !Retired(s[i]);
            return;
          }
        }
      }
      return ENOENT;
    }

    // ---------- What the server offers ----------

    /** A `Proxy-Authenticate` value offers a method if its name is followed by a blank or the end. */
    static predicate Offers(m: nat, hdr: string)
      requires m < METHODS
    {
      Name(m) <= hdr && (|hdr| == |Name(m)| || hdr[|Name(m)|] == ' ')
    }

    /** The three methods by their names, which must stand at the head of the value and end there or at a blank. */
    static lemma OfferNames(hdr: string)
      ensures Offers(0, hdr) <==> hdr == "NTLM" || (|hdr| > 4 && hdr[..5] == "NTLM ")
      ensures Offers(1, hdr) <==> hdr == "Digest" || (|hdr| > 6 && hdr[..7] == "Digest ")
      ensures Offers(2, hdr) <==> hdr == "Basic" || (|hdr| > 5 && hdr[..6] == "Basic ")
    {
      Prefixed("NTLM", hdr);
      Prefixed("Digest", hdr);
      Prefixed("Basic", hdr);
      assert "NTLM" + " " == "NTLM " && "Digest" + " " == "Digest " && "Basic" + " " == "Basic ";
    }

    static lemma Prefixed(name: string, hdr: string)
      ensures name <= hdr && (|hdr| == |name| || hdr[|name|] == ' ')
         <==> hdr == name || (|hdr| > |name| && hdr[..|name| + 1] == name + " ")
    {
      if |hdr| > |name| {
        assert hdr[..|name| + 1] == hdr[..|name|] + [hdr[|name|]];
        assert hdr[..|name| + 1] == name + " " ==> hdr[|name|] == (name + " ")[|name|] && hdr[..|name|] == (name + " ")[..|name|];
      }
    }

    /** One `Proxy-Authenticate` value for one method. */
    method HandleAuthProto(m: nat, hdr: string)
      requires Valid() && m < METHODS
      modifies auth
      ensures forall i :: 0 <= i < METHODS && i != m ==> auth[i] == old(auth[i])
      ensures auth[m] == if Retired(old(auth[m].state)) || !Offers(m, hdr) then old(auth[m])
          else AuthState(if old(auth[m].state) == AUTH_UNSEEN then AUTH_AVAILABLE else old(auth[m].state),
                         if |hdr| > |Name(m)| then Some(hdr[|Name(m)| + 1..]) else None)
    {
      var l := |Name(m)|;
      if auth[m].state <= AUTH_FAILED {
        return;
      }
      if !(Name(m) <= hdr) {
        return;
      }
      if |hdr| > l && hdr[l] != ' ' {
        return;
      }
      if auth[m].state == AUTH_UNSEEN {
        auth[m] := auth[m].(state := AUTH_AVAILABLE);
      }
      auth[m] := auth[m].(challenge := if |hdr| > l then Some(hdr[l + 1..]) else None);
    }

    /** How far a method has got after the offers of a response. */
    static ghost function Offered(m: nat, state: int, challenges: seq<string>): int
      requires m < METHODS
    {
      if state == AUTH_UNSEEN && exists k :: 0 <= k < |challenges| && Offers(m, challenges[k]) then AUTH_AVAILABLE else state
    }

    method ProxyHeaders(challenges: seq<string>)
      requires Valid()
      modifies auth
      ensures Absorbed(old(States()), States())
      ensures forall m :: 0 <= m < METHODS ==> auth[m].state == Offered(m, old(auth[m].state), challenges)
      ensures auth[NTLM].state == Offered(NTLM, old(auth[NTLM].state), challenges)
    {
      assert challenges[..0] == [];
      for k := 0 to |challenges|
        invariant forall m :: 0 <= m < METHODS ==> auth[m].state == Offered(m, old(auth[m].state), challenges[..k])
      {
        OneMoreOffer(challenges, k);
        hide Offers, Offered;
        for m := 0 to METHODS
          invariant forall i :: 0 <= i < m ==> auth[i].state == Offered(i, old(auth[i].state), challenges[..k + 1])
          invariant forall i :: m <= i < METHODS ==> auth[i].state == Offered(i, old(auth[i].state), challenges[..k])
        {
          HandleAuthProto(m, challenges[k]);
        }
      }
      assert challenges[..|challenges|] == challenges;
    }

    static lemma HelperOffer()
      ensures Offered(NTLM, AUTH_UNSEEN, ["NTLM"]) == AUTH_AVAILABLE
    {
      assert Offers(NTLM, ["NTLM"][0]);
    }

    static lemma OneMoreOffer(challenges: seq<string>, k: nat)
      requires k < |challenges|
      ensures forall m: nat, state: int :: m < METHODS ==>
        (Offered(m, state, challenges[..k + 1]) ==
          if Offered(m, state, challenges[..k]) == AUTH_UNSEEN && Offers(m, challenges[k]) then AUTH_AVAILABLE
          else Offered(m, state, challenges[..k]))
    {
      hide Offers;
      forall m: nat, state: int | m < METHODS
        ensures Offered(m, state, challenges[..k + 1]) ==
          if Offered(m, state, challenges[..k]) == AUTH_UNSEEN && Offers(m, challenges[k]) then AUTH_AVAILABLE
          else Offered(m, state, challenges[..k])
      {
        assert challenges[..k + 1][k] == challenges[k];
        assert forall i :: 0 <= i < k ==> challenges[..k + 1][i] == challenges[..k][i];
      }
    }

    /** How far a method has got after its state is cleared. */
    static function Cleared(state: int, reset: bool): int
    {
      if !Retired(state) && (reset || state == AUTH_AVAILABLE) then AUTH_UNSEEN else state
    }

    /** Forget a challenge; with `reset` also how far the method got, but never that it failed. */
    method ClearAuthState(m: nat, reset: bool)
      requires Valid() && m < METHODS
      modifies auth
      ensures forall i :: 0 <= i < METHODS && i != m ==> auth[i] == old(auth[i])
      ensures auth[m] == AuthState(Cleared(old(auth[m].state), reset), None)
    {
      auth[m] := auth[m].(challenge := None);
      if auth[m].state <= AUTH_FAILED {
        return;
      }
      if reset || auth[m].state == AUTH_AVAILABLE {
        auth[m] := auth[m].(state := AUTH_UNSEEN);
      }
    }

    method ClearAll(reset: bool)
      requires Valid()
      modifies auth
      ensures Absorbed(old(States()), States())
      ensures forall i :: 0 <= i < METHODS ==> auth[i] == AuthState(Cleared(old(auth[i].state), reset), None)
      ensures auth[NTLM].state == Cleared(old(auth[NTLM].state), reset)
    {
      for m := 0 to METHODS
        invariant forall i :: m <= i < METHODS ==> auth[i] == old(auth[i])
        invariant forall i :: 0 <= i < m ==>
          auth[i] == AuthState(Cleared(old(auth[i].state), reset), None)
      {
        ClearAuthState(m, reset);
      }
    }

    // ---------- One connection ----------

    /** Without a password, and with NTLM not yet in the middle of anything, the helper is used. */
    ghost predicate HelperMayRun()
      requires Valid()
      reads auth
    {
      !hasPass && auth[NTLM].state in {AUTH_UNSEEN, AUTH_AVAILABLE}
    }

    /** Between connections a method is either out of the race or not yet offered. */
    ghost predicate Rested()
      requires Valid()
      reads auth
    {
      forall i :: 0 <= i < METHODS ==> Retired(auth[i].state) || auth[i].state == AUTH_UNSEEN
    }

    /** The user's choice of methods; all others are disabled. */
    method SetProxyAuth(named: set<nat>)
      requires Valid()
      modifies auth
      ensures Rested() && forall i :: 0 <= i < METHODS ==> auth[i].state == if i in named then AUTH_UNSEEN else AUTH_DISABLED
    {
      for i := 0 to METHODS
        invariant forall k :: 0 <= k < i ==> auth[k].state == if k in named then AUTH_UNSEEN else AUTH_DISABLED
      {
        auth[i] := auth[i].(state := AUTH_DISABLED);
        if i in named {
          auth[i] := auth[i].(state := AUTH_UNSEEN);
        }
      }
    }

    /**
     CONNECT requests until the proxy answers something other than 407. `attempts` is what the
     environment does, request by request; a run may be cut off anywhere.
     */
    method ProcessHttpProxy(attempts: seq<Attempt>) returns (ret: int, cut: bool)
      requires Valid()
      modifies auth
      ensures Absorbed(old(States()), States())
      ensures !cut && ret == -11 && (hasPass || Retired(old(auth[NTLM].state))) && old(auth[NTLM].state) != NTLM_SSO_REQ ==>
        Enabled(States()) < Enabled(old(States()))
      ensures old(HelperMayRun()) && attempts == HelperRound() ==> ret == -11 && !cut && auth[NTLM].state == NTLM_MANUAL
    {
      ghost var s := States();
      ghost var scripted := HelperMayRun() && attempts == HelperRound();
      var authNow := false;
      for k := 0 to |attempts|
        invariant scripted ==> k < 3
        invariant k == 0 ==> !authNow
        invariant scripted && k == 0 ==> auth[NTLM].state in {AUTH_UNSEEN, AUTH_AVAILABLE}
        invariant scripted && k > 0 ==> authNow && auth[NTLM].state == if k == 1 then AUTH_AVAILABLE else NTLM_SSO_REQ
        invariant Absorbed(s, States())
        invariant (hasPass || Retired(old(auth[NTLM].state))) && old(auth[NTLM].state) != NTLM_SSO_REQ ==> auth[NTLM].state != NTLM_SSO_REQ
      {
        var a := attempts[k];
        HelperOffer();
        if authNow {
          ghost var before := States();
          assert Retired(s[NTLM]) ==> before[NTLM] == s[NTLM];
          ret := ProxyAuthorization(a.env);
          if ret != 0 {
            EnabledShrinks(before, States());
            EnabledShrinks(s, before);
            return ret, false;
          }
          ClearAll(false);
        }
        match a.response {
          case Broken => return EINVAL, false;
          case Http(status, challenges) =>
            ProxyHeaders(challenges);
            if status == 407 {
              authNow := true;
            } else if status == 200 {
              return 0, false;
            } else {
              return EIO, false;
            }
        }
      }
      return 0, true;
    }

    /** One connection to the proxy, after which only failures are remembered. */
    method ProcessProxy(attempts: seq<Attempt>) returns (ret: int, cut: bool)
      requires Valid()
      modifies auth
      ensures Absorbed(old(States()), States())
      ensures Rested()
      ensures old(HelperMayRun()) && attempts == HelperRound() ==> ret == -11 && !cut && auth[NTLM].state == AUTH_UNSEEN
      ensures !cut && ret == -11 && (hasPass || Retired(old(auth[NTLM].state))) && old(auth[NTLM].state) != NTLM_SSO_REQ ==>
        Enabled(States()) < Enabled(old(States()))
    {
      ret, cut := ProcessHttpProxy(attempts);
      ghost var before := States();
      ClearAll(true);
      EnabledShrinks(before, States());
    }

    // ---------- Reconnects ----------

    /**
     Connect again as long as authentication asks for it. With a password, or with NTLM out of the race, the number of
     reconnects never exceeds the number of methods enabled at the start, whatever the server sends. Otherwise there
     is no bound: every number of connections on which the helper asks for another one is followed by as many reconnects.
     */
    method ConnectHttpsSocket(connections: seq<seq<Attempt>>) returns (ret: int, reconnects: nat)
      requires Valid() && auth[NTLM].state != NTLM_SSO_REQ
      modifies auth
      ensures Absorbed(old(States()), States())
      ensures hasPass || Retired(old(auth[NTLM].state)) ==> reconnects + Enabled(States()) <= Enabled(old(States()))
      ensures old(HelperMayRun()) && (forall k :: 0 <= k < |connections| ==> connections[k] == HelperRound()) ==>
        reconnects == |connections| && ret == -11
      ensures connections != [] ==> Rested()
    {
      ghost var s := States();
      ghost var scripted := HelperMayRun() && forall k :: 0 <= k < |connections| ==> connections[k] == HelperRound();
      hide HelperRound;
      ret, reconnects := EAGAIN, 0;
      for k := 0 to |connections|
        invariant scripted ==> HelperMayRun() && reconnects == k && ret == EAGAIN
        invariant k > 0 ==> Rested()
        invariant Absorbed(s, States()) && auth[NTLM].state != NTLM_SSO_REQ
        invariant hasPass || Retired(old(auth[NTLM].state)) ==> reconnects + Enabled(States()) <= Enabled(s)
      {
        ghost var before := States();
        var cut;
        ret, cut := ProcessProxy(connections[k]);
        EnabledShrinks(before, States());
        if cut || ret != EAGAIN {
          return;
        }
        reconnects := reconnects + 1;
      }
    }
  }

  /** Between connections the bound on reconnects holds for all servers if and only if the helper cannot be used. */
  lemma BoundedIff(p: Proxy)
    requires p.Valid() && p.Rested()
    ensures p.HelperMayRun() <==> !(p.hasPass || Retired(p.auth[NTLM].state))
  {}

  /** Wherever the helper can be used, any number of reconnects can be had. */
  method ReconnectsWithoutBound(p: Proxy, n: nat) returns (connections: seq<seq<Attempt>>, reconnects: nat)
    requires p.Valid() && p.HelperMayRun()
    modifies p.auth
    ensures |connections| == n && reconnects == n
  {
    connections := seq(n, _ => HelperRound());
    var ret;
    ret, reconnects := p.ConnectHttpsSocket(connections);
  }

  /** Without a password the helper can ask for a new connection and leave every method as enabled as before. */
  method SingleSignOnReconnectsForFree() returns (p: Proxy, ret: int)
    ensures fresh(p) && p.Valid() && !p.hasPass
    ensures ret == -11 && Enabled(p.States()) == METHODS
  {
    p := new Proxy([AUTH_UNSEEN, AUTH_UNSEEN, AUTH_UNSEEN], true, false, false);
    var env := Env(true, EAGAIN, false, false, false);
    p.HandleAuthProto(NTLM, Name(NTLM));
    ret := p.NtlmAuthorization(env);
    p.ClearAll(false);
    ret := p.NtlmAuthorization(env);
    ghost var s := p.States();
    assert !Retired(s[0]) && !Retired(s[1]) && !Retired(s[2]);
    assert s[1..][1..][1..] == [];
    assert Enabled(s[1..]) == 2;
  }
}
