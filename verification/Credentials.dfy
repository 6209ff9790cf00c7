/** Workload credentials with a pruned nonce table: every (credential, nonce) pair is accepted at most once. */
module Credentials {
  import opened Prelude

  datatype Claims = Claims(
    version: int, jti: string, audience: string, scope: string, actions: set<string>, issuedAt: int, expiresAt: int)

  datatype Config = Config(audience: string, maxTtl: int)

  /** `issued` stands for the signing key: a token verifies exactly when its claims were signed. */
  datatype Authority = Authority(issued: set<Claims>, revoked: set<string>, nonces: map<string, int>)

  /** What arrives at verify; `proven` says whether the proof of possession checks out. */
  datatype Call = Call(claims: Claims, nonce: string, timestamp: Option<int>, proof: bool, proven: bool, action: string, scope: string, now: int)

  datatype Error = SignatureInvalid | TokenRejected | ScopeRejected | ProofRequired | ReplayRejected | ProofInvalid

  datatype Answer = Accepted | Refused(error: Error)

  const SKEW := 5000
  const PROOF_WINDOW := 30000
  const MIN_TTL := 1000
  const MAX_NONCE := 128

  function Abs(x: int): int { if x < 0 then -x else x }

  function ReplayKey(jti: string, nonce: string): string { jti + ":" + nonce }

  // ---------------------------------------------------------------------------------------------
  // Operations

  /** None stands for the invalid-lifetime error. The credential identifier is random, hence new and free of colons. */
  function Issue(a: Authority, config: Config, jti: string, scope: string, ttl: int, now: int): Option<Authority> {
    var life := Min(ttl, config.maxTtl);
    if life < MIN_TTL then None
    else Some(a.(issued := a.issued + {Claims(1, jti, config.audience, scope, {"source.search", "citation.read"}, now, now + life)}))
  }

  function Revoke(a: Authority, jti: string): Authority {
    a.(revoked := a.revoked + {jti})
  }

  function Prune(nonces: map<string, int>, now: int): map<string, int> {
    map k | k in nonces && nonces[k] > now :: nonces[k]
  }

  /** The checks before the nonce table is touched. */
  function Screen(a: Authority, config: Config, c: Call): Option<Error> {
    if c.claims !in a.issued then Some(SignatureInvalid)
    else if c.claims.version != 1 || c.claims.audience != config.audience || c.claims.expiresAt <= c.now ||
            c.claims.issuedAt > c.now + SKEW || c.claims.jti in a.revoked
    then Some(TokenRejected)
    else if c.claims.scope != c.scope || c.action !in c.claims.actions then Some(ScopeRejected)
    else if c.nonce == "" || |c.nonce| > MAX_NONCE || c.timestamp.None? || Abs(c.now - c.timestamp.value) > PROOF_WINDOW || !c.proof
    then Some(ProofRequired)
    else None
  }

  function Verify(a: Authority, config: Config, c: Call): (Authority, Answer) {
    match Screen(a, config, c)
    case Some(error) => (a, Refused(error))
    case None =>
      var pruned := Prune(a.nonces, c.now);
      var key := ReplayKey(c.claims.jti, c.nonce);
      if key in pruned then (a.(nonces := pruned), Refused(ReplayRejected))
      else if !c.proven then (a.(nonces := pruned), Refused(ProofInvalid))
      else (a.(nonces := pruned[key := c.claims.expiresAt]), Accepted)
  }

  class CredentialAuthority {
    var issued: set<Claims>
    var revoked: set<string>
    var nonces: map<string, int>
    const config: Config

    ghost function State(): Authority
      reads this
    {
      Authority(issued, revoked, nonces)
    }

    constructor (config: Config)
      ensures State() == Authority({}, {}, map[]) && this.config == config
    {
      issued, revoked, nonces, this.config := {}, {}, map[], config;
    }

    method RevokeCredential(jti: string)
      modifies this`revoked
      ensures State() == Revoke(old(State()), jti)
    {
      revoked := revoked + {jti};
    }

    /** The pruning loop: expired nonces are deleted one by one. */
    method PruneNonces(now: int)
      modifies this`nonces
      ensures nonces == Prune(old(nonces), now)
    {
      var left := nonces.Keys;
      while left != {}
        invariant left <= nonces.Keys <= old(nonces).Keys
        invariant forall k :: k in nonces ==> nonces[k] == old(nonces)[k]
        invariant forall k :: k in old(nonces) && k !in nonces ==> old(nonces)[k] <= now
        invariant forall k :: k in nonces && k !in left ==> nonces[k] > now
        decreases left
      {
        var k :| k in left;
        if nonces[k] <= now {
          nonces := nonces - {k};
        }
        left := left - {k};
      }
    }

    method VerifyCall(c: Call) returns (answer: Answer)
      modifies this
      ensures (State(), answer) == Verify(old(State()), config, c)
    {
      var error := Screen(Authority(issued, revoked, nonces), config, c);
      if error.Some? {
        return Refused(error.value);
      }
      PruneNonces(c.now);
      var key := ReplayKey(c.claims.jti, c.nonce);
      if key in nonces {
        return Refused(ReplayRejected);
      }
      if !c.proven {
        return Refused(ProofInvalid);
      }
      nonces := nonces[key := c.claims.expiresAt];
      answer := Accepted;
    }
  }

  // ---------------------------------------------------------------------------------------------
  // Runs, with the log of accepted pairs

  datatype Step = Issuing(jti: string, scope: string, ttl: int, now: int) | Revoking(jti: string) | Verifying(call: Call)

  datatype Trace = Trace(authority: Authority, log: seq<(string, string)>, clock: int)

  predicate FreshId(a: Authority, jti: string) {
    ':' !in jti && forall c :: c in a.issued ==> c.jti != jti
  }

  function Advance(t: Trace, config: Config, step: Step): Trace {
    match step
    case Issuing(jti, scope, ttl, now) =>
      (match Issue(t.authority, config, jti, scope, ttl, now)
       case Some(a) => if FreshId(t.authority, jti) then t.(authority := a) else t
       case None => t)
    case Revoking(jti) => t.(authority := Revoke(t.authority, jti))
    case Verifying(c) =>
      var (a, answer) := Verify(t.authority, config, c);
      Trace(a, if answer == Accepted then t.log + [(c.claims.jti, c.nonce)] else t.log, Max(t.clock, c.now))
  }

  /** The clock does not run backwards. */
  predicate Timely(t: Trace, step: Step) {
    step.Verifying? ==> step.call.now >= t.clock
  }

  function Run(t: Trace, config: Config, steps: seq<Step>): Trace
    decreases |steps|
  {
    if steps == [] then t else Run(Advance(t, config, steps[0]), config, steps[1..])
  }

  ghost predicate AllTimely(t: Trace, config: Config, steps: seq<Step>)
    decreases |steps|
  {
    steps != [] ==> Timely(t, steps[0]) && AllTimely(Advance(t, config, steps[0]), config, steps[1..])
  }

  // ---------------------------------------------------------------------------------------------
  // Invariant

  ghost predicate OneClaimPerId(a: Authority) {
    forall c, d :: c in a.issued && d in a.issued && c.jti == d.jti ==> c == d
  }

  /** A pair that was accepted is still in the table, or its token has expired. */
  ghost predicate Remembered(t: Trace, pair: (string, string)) {
    exists c :: c in t.authority.issued && c.jti == pair.0 &&
      (c.expiresAt <= t.clock || (ReplayKey(pair.0, pair.1) in t.authority.nonces && t.authority.nonces[ReplayKey(pair.0, pair.1)] == c.expiresAt))
  }

  ghost predicate Logged(t: Trace, key: string) {
    exists i :: 0 <= i < |t.log| && ReplayKey(t.log[i].0, t.log[i].1) == key
  }

  ghost predicate Inv(t: Trace, config: Config) {
    && OneClaimPerId(t.authority)
    && (forall c :: c in t.authority.issued ==> ':' !in c.jti && c.expiresAt <= c.issuedAt + config.maxTtl)
    && (forall i :: 0 <= i < |t.log| ==> Remembered(t, t.log[i]))
    && (forall k :: k in t.authority.nonces ==> Logged(t, k))
    && (forall i, j :: 0 <= i < j < |t.log| ==> t.log[i] != t.log[j])
  }

  lemma VerifyPrunesOnlyExpired(t: Trace, config: Config, c: Call, pair: (string, string))
    requires Remembered(t, pair) && c.now >= t.clock
    ensures Remembered(Advance(t, config, Verifying(c)), pair)
  {
    var t' := Advance(t, config, Verifying(c));
    var k := ReplayKey(pair.0, pair.1);
    var d :| d in t.authority.issued && d.jti == pair.0 &&
      (d.expiresAt <= t.clock || (k in t.authority.nonces && t.authority.nonces[k] == d.expiresAt));
    assert d in t'.authority.issued;
    if d.expiresAt > t'.clock {
      assert k in t.authority.nonces && t.authority.nonces[k] > c.now;
      assert Screen(t.authority, config, c).None? ==> k in Prune(t.authority.nonces, c.now);
    }
  }

  lemma VerifyKeeps(t: Trace, config: Config, c: Call)
    requires Inv(t, config) && c.now >= t.clock
    ensures Inv(Advance(t, config, Verifying(c)), config)
  {
    var t' := Advance(t, config, Verifying(c));
    var pair := (c.claims.jti, c.nonce);
    var accepted := Verify(t.authority, config, c).1 == Accepted;
    forall i | 0 <= i < |t'.log| ensures Remembered(t', t'.log[i]) {
      if i < |t.log| {
        VerifyPrunesOnlyExpired(t, config, c, t.log[i]);
      } else {
        assert t'.log[i] == pair && c.claims in t'.authority.issued;
      }
    }
    forall k | k in t'.authority.nonces ensures Logged(t', k) {
      if accepted && k == ReplayKey(c.claims.jti, c.nonce) {
        assert t'.log[|t.log|] == pair;
      } else {
        assert k in t.authority.nonces;
        var i :| 0 <= i < |t.log| && ReplayKey(t.log[i].0, t.log[i].1) == k;
        assert t'.log[i] == t.log[i];
      }
    }
    forall i, j | 0 <= i < j < |t'.log| ensures t'.log[i] != t'.log[j] {
    }
  }

  lemma {:induction false} RunKeeps(t: Trace, config: Config, steps: seq<Step>)
    requires Inv(t, config) && AllTimely(t, config, steps)
    ensures Inv(Run(t, config, steps), config)
    decreases |steps|
  {
    if steps != [] {
      if steps[0].Verifying? { VerifyKeeps(t, config, steps[0].call); }
      RunKeeps(Advance(t, config, steps[0]), config, steps[1..]);
    }
  }

  const NEW := Trace(Authority({}, {}, map[]), [], 0)

  /** Over every run with a clock that does not go back, no pair of credential and nonce is accepted twice. */
  lemma AcceptedAtMostOnce(config: Config, steps: seq<Step>)
    requires AllTimely(NEW, config, steps)
    ensures
      var log := Run(NEW, config, steps).log;
      forall i, j :: 0 <= i < j < |log| ==> log[i] != log[j]
  {
    RunKeeps(NEW, config, steps);
  }

  function Colon(s: string): nat {
    if s == [] || s[0] == ':' then 0 else 1 + Colon(s[1..])
  }

  lemma {:induction false} ColonAt(a: string, n: string)
    requires ':' !in a
    ensures Colon(ReplayKey(a, n)) == |a|
  {
    if a != [] {
      assert ReplayKey(a, n)[1..] == ReplayKey(a[1..], n);
      ColonAt(a[1..], n);
    }
  }

  lemma ReplayKeyInjective(a: string, n: string, b: string, m: string)
    requires ':' !in a && ':' !in b && ReplayKey(a, n) == ReplayKey(b, m)
    ensures a == b && n == m
  {
    ColonAt(a, n);
    ColonAt(b, m);
    var k := ReplayKey(a, n);
    assert k[..|a|] == a && ReplayKey(b, m)[..|b|] == b;
    assert k[|a| + 1..] == n && ReplayKey(b, m)[|b| + 1..] == m;
  }

  /** A screened call is refused as a replay exactly when its pair was accepted before: pruning loses nothing and confuses nothing. */
  lemma ReplayExactly(t: Trace, config: Config, c: Call)
    requires Inv(t, config) && c.now >= t.clock && Screen(t.authority, config, c).None?
    ensures Verify(t.authority, config, c).1 == Refused(ReplayRejected) <==> (c.claims.jti, c.nonce) in t.log
  {
    var pair := (c.claims.jti, c.nonce);
    var key := ReplayKey(c.claims.jti, c.nonce);
    if pair in t.log {
      var i :| 0 <= i < |t.log| && t.log[i] == pair;
      assert Remembered(t, t.log[i]);
      var d :| d in t.authority.issued && d.jti == pair.0 &&
        (d.expiresAt <= t.clock || (key in t.authority.nonces && t.authority.nonces[key] == d.expiresAt));
      assert d == c.claims;
    } else if key in t.authority.nonces {
      assert Logged(t, key);
      var i :| 0 <= i < |t.log| && ReplayKey(t.log[i].0, t.log[i].1) == key;
      assert Remembered(t, t.log[i]);
      var d :| d in t.authority.issued && d.jti == t.log[i].0;
      assert t.log[i] in t.log;
      ReplayKeyInjective(c.claims.jti, c.nonce, t.log[i].0, t.log[i].1);
    }
  }

  /** Nothing is accepted beyond the maximum lifetime of its credential. */
  lemma NothingOutlivesMaximum(t: Trace, config: Config, c: Call)
    requires Inv(t, config) && Verify(t.authority, config, c).1 == Accepted
    ensures c.now < c.claims.issuedAt + config.maxTtl && c.claims.issuedAt - SKEW <= c.now
  {
  }

  lemma {:induction false} RevokedStays(t: Trace, config: Config, steps: seq<Step>, jti: string)
    requires jti in t.authority.revoked
    ensures jti in Run(t, config, steps).authority.revoked
    decreases |steps|
  {
    if steps != [] { RevokedStays(Advance(t, config, steps[0]), config, steps[1..], jti); }
  }

  /** Nothing is accepted for a credential after it was revoked, in any later state of any run. */
  lemma NothingAfterRevocation(t: Trace, config: Config, steps: seq<Step>, c: Call)
    ensures Verify(Run(Advance(t, config, Revoking(c.claims.jti)), config, steps).authority, config, c).1 != Accepted
  {
    RevokedStays(Advance(t, config, Revoking(c.claims.jti)), config, steps, c.claims.jti);
  }
}
