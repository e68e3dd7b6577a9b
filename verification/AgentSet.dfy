/** The resumable agent-set step of the anchor deployers: 21 abstract accounts, each with an
    agent on its proxy account.  One app's agents and the account registry are the chain
    state; a run may stop at any read or transaction. */
module AgentSet {
  import opened ByteStrings
  import opened AccountCodec
  import opened Wrappers

  const AGENTS := 21
  const TIMELOCK := 30 * 24 * 60 * 60
  const ZERO: Uint160 := [0, 0, 0, 0, 0, 0, 0, 0, 0, 0, 0, 0, 0, 0, 0, 0, 0, 0, 0, 0]

  /** The bytes of a text without characters beyond one byte. */
  function Latin(s: string): Bytes {
    seq(|s|, i requires 0 <= i < |s| => s[i] as int % 0x100)
  }

  /** An agent as the anchor stores it: the proxy account and the account id bytes. */
  datatype Agent = Agent(account: Uint160, id: Bytes)

  /** One call of `ensureAgentSet` (testnet) or `mainnetAnchorEnsureAgentSet`. */
  datatype Setup = Setup(seed: string, app: string, nonce: string, owner: Uint160, core: Uint160, mainnet: bool,
                         hash160: Hash160) {

    function Params(i: int): Bytes
      requires 1 <= i <= AGENTS
    {
      Latin("anchor:") + (Latin(seed) + (Latin(":app:") + (Latin(app)
      + (Latin(":agent:") + ([0x30 + i / 10, 0x30 + i % 10] + (Latin(":nonce:") + Latin(nonce)))))))
    }

    function Payload(i: int): Bytes
      requires 1 <= i <= AGENTS
    {
      RegistrationPayload(ZERO, Params(i), ZERO, owner, TIMELOCK)
    }

    function Id(i: int): Uint160
      requires 1 <= i <= AGENTS
    {
      DecodeLE(BytesBE(hash160(Payload(i))))
    }

    function Account(i: int): Uint160
      requires 1 <= i <= AGENTS
    {
      if mainnet then MainnetProxy(core, Id(i), hash160) else TestnetProxy(core, Id(i), hash160)
    }

    /** What the loop uses of the derivation. */
    function Derive(): Plan {
      Plan(owner, i => if 1 <= i <= AGENTS then Id(i) else ZERO, i => if 1 <= i <= AGENTS then Account(i) else ZERO)
    }
  }

  /** The account id and the proxy account of each position, 1 to 21. */
  datatype Plan = Plan(owner: Uint160, id: int -> Uint160, account: int -> Uint160) {
    function Wanted(i: int): Agent {
      Agent(account(i), BytesBE(id(i)))
    }
  }

  /** The id is the one both deployers and the JS validators compute. */
  lemma IdIsDerived(s: Setup, i: int)
    requires 1 <= i <= AGENTS
    ensures GoAccountId(ZERO, s.Params(i), ZERO, s.owner, TIMELOCK, s.hash160) == Ok(s.Id(i))
    ensures Display(s.Id(i)) ==
              JsAccountId(Display(s.owner), Display(ZERO), Display(ZERO), TIMELOCK, Hex(s.Params(i)), s.hash160)
  {
    AccountIdsAgree(ZERO, s.Params(i), ZERO, s.owner, TIMELOCK, s.hash160);
  }

  /** The parameters are the bytes of the original's text, in which two digits give the
      position. */
  lemma ParamsText(s: Setup, i: int) returns (tens: char, ones: char)
    requires 1 <= i <= AGENTS
    ensures '0' <= tens <= '9' && '0' <= ones <= '9'
    ensures 10 * (tens as int - '0' as int) + (ones as int - '0' as int) == i
    ensures s.Params(i) == Latin("anchor:" + (s.seed + (":app:" + (s.app + (":agent:" + ([tens, ones]
                             + (":nonce:" + s.nonce)))))))
  {
    tens, ones := (0x30 + i / 10) as char, (0x30 + i % 10) as char;
    var r5 := ":nonce:" + s.nonce;
    var r4 := [tens, ones] + r5;
    var r3 := ":agent:" + r4;
    var r2 := s.app + r3;
    var r1 := ":app:" + r2;
    LatinConcat(":nonce:", s.nonce);
    LatinConcat([tens, ones], r5);
    LatinConcat(":agent:", r4);
    LatinConcat(s.app, r3);
    LatinConcat(":app:", r2);
    LatinConcat(s.seed, r1);
    LatinConcat("anchor:", s.seed + r1);
    assert Latin([tens, ones]) == [0x30 + i / 10, 0x30 + i % 10];
  }

  lemma LatinConcat(s: string, t: string)
    ensures Latin(s + t) == Latin(s) + Latin(t)
  {}

  /** The account that the validators compute is the derived one on testnet, and its byte
      reversal on mainnet. */
  function Validated(s: Setup, account: Uint160): Uint160 {
    if s.mainnet then Reverse(account) else account
  }

  /** The validators match the account with the id that they derive for position i. */
  predicate AgentAccepted(s: Setup, account: Uint160, i: int)
    requires 1 <= i <= AGENTS
  {
    var id := JsAccountId(Display(s.owner), Display(ZERO), Display(ZERO), 2_592_000, Hex(s.Params(i)), s.hash160);
    AaProxyMatched(Display(Validated(s, account)), id, Display(s.core), s.hash160) == Some(true)
  }

  /** The validators accept every derived account, on mainnet read backwards. */
  lemma AccountsAreAccepted(s: Setup, i: int)
    requires 1 <= i <= AGENTS
    ensures var p := s.Derive();
            AgentAccepted(s, p.account(i), i)
            && AaProxyMatched(Display(Validated(s, p.account(i))), Display(p.id(i)), Display(s.core), s.hash160)
                 == Some(true)
  {
    IdIsDerived(s, i);
    AgentMatching(s.core, s.Id(i), Validated(s, s.Account(i)), s.hash160);
    ProxiesAgree(s.core, s.Id(i), s.hash160);
    ReverseTwice(TestnetProxy(s.core, s.Id(i), s.hash160));
  }

  // ---------- What a run leads to ----------

  /** The agent at position i once the run has passed it: agents are matched by account
      only, so one that already has the right account keeps its stored id. */
  function Settled(p: Plan, start: seq<Agent>, i: int): Agent
    requires 1 <= i <= AGENTS
  {
    if i <= |start| && start[i - 1].account == p.account(i) then start[i - 1] else p.Wanted(i)
  }

  function Max(a: nat, b: nat): nat {
    if a < b then b else a
  }

  /** The agents when positions 1..k are settled and the rest are as they were. */
  function Progress(p: Plan, start: seq<Agent>, k: nat): (r: seq<Agent>)
    requires k <= AGENTS && |start| <= AGENTS
    ensures |r| <= AGENTS
  {
    seq(Max(k, |start|), i requires 0 <= i < Max(k, |start|) => if i < k then Settled(p, start, i + 1) else start[i])
  }

  ghost predicate Reached(p: Plan, start: seq<Agent>, now: seq<Agent>) {
    |start| <= AGENTS && exists k: nat :: k <= AGENTS && now == Progress(p, start, k)
  }

  /** Going on from an interrupted run is the same as never having been interrupted. */
  lemma ProgressResumes(p: Plan, start: seq<Agent>, k: nat, m: nat)
    requires k <= AGENTS && m <= AGENTS && |start| <= AGENTS
    ensures Progress(p, Progress(p, start, k), m) == Progress(p, start, Max(k, m))
  {
    var now := Progress(p, start, k);
    forall i | 0 <= i < AGENTS ensures i < k ==> Settled(p, now, i + 1) == now[i] {}
  }

  lemma ReachedAgain(p: Plan, start: seq<Agent>, now: seq<Agent>, later: seq<Agent>)
    requires Reached(p, start, now) && Reached(p, now, later)
    ensures Reached(p, start, later)
    ensures Progress(p, now, AGENTS) == Progress(p, start, AGENTS)
  {
    var k: nat :| k <= AGENTS && now == Progress(p, start, k);
    var m: nat :| m <= AGENTS && later == Progress(p, now, m);
    ProgressResumes(p, start, k, m);
    ProgressResumes(p, start, k, AGENTS);
  }

  /** A finished run leaves exactly 21 agents, the i-th on the proxy of the i-th account id;
      a stored id is wrong only where it was already wrong on the right account. */
  lemma FinishedAgents(p: Plan, start: seq<Agent>)
    requires |start| <= AGENTS
    ensures var done := Progress(p, start, AGENTS);
            && |done| == 21
            && forall i :: 1 <= i <= AGENTS ==>
                 && done[i - 1].account == p.account(i)
                 && (done[i - 1] == p.Wanted(i) <==>
                       (i <= |start| && start[i - 1].account == p.account(i) ==> start[i - 1].id == p.id(i)))
  {
    var done := Progress(p, start, AGENTS);
    forall i | 1 <= i <= AGENTS
      ensures done[i - 1].account == p.account(i)
      ensures done[i - 1] == p.Wanted(i) <==>
                (i <= |start| && start[i - 1].account == p.account(i) ==> start[i - 1].id == p.id(i))
    {
      assert done[i - 1] == Settled(p, start, i);
    }
  }

  function AccountsOf(agents: seq<Agent>): seq<Uint160> {
    seq(|agents|, i requires 0 <= i < |agents| => agents[i].account)
  }

  /** The agents that a finished run leaves are on the listed accounts; those that a run
      registered carry the derived id. */
  lemma AccountsAreListed(p: Plan, start: seq<Agent>)
    requires |start| <= AGENTS
    ensures var done := Progress(p, start, AGENTS);
            && AccountsOf(done) == AccountList(p, AGENTS)
            && forall i :: |start| <= i < |done| ==> done[i].id == BytesBE(p.id(i + 1))
  {
    FinishedAgents(p, start);
    var done := Progress(p, start, AGENTS);
    forall i | 0 <= i < AGENTS ensures AccountsOf(done)[i] == AccountList(p, AGENTS)[i] {
      assert done[i].account == p.account(i + 1);
    }
    forall i | |start| <= i < |done| ensures done[i].id == BytesBE(p.id(i + 1)) {
      assert done[i] == Settled(p, start, i + 1);
    }
  }

  /** Those that the run registered carry the derived id. */
  ghost predicate OwnIds(s: Setup, agents: seq<Agent>, before: nat) {
    |agents| == AGENTS && forall i :: before <= i < AGENTS ==> agents[i].id == BytesBE(s.Id(i + 1))
  }

  lemma RunRegistersOwnIds(s: Setup, start: seq<Agent>)
    requires |start| <= AGENTS
    ensures OwnIds(s, Progress(s.Derive(), start, AGENTS), |start|)
  {
    AccountsAreListed(s.Derive(), start);
  }

  type Verdict = (Uint160, int) -> bool

  /** The verdict holds of each account for its position, counted from 1. */
  ghost predicate AllPass(ok: Verdict, accounts: seq<Uint160>) {
    forall i :: 0 <= i < |accounts| ==> ok(accounts[i], i + 1)
  }

  ghost predicate PlanPasses(ok: Verdict, p: Plan) {
    forall i :: 1 <= i <= AGENTS ==> ok(p.account(i), i)
  }

  lemma ListPasses(ok: Verdict, p: Plan)
    requires PlanPasses(ok, p)
    ensures AllPass(ok, AccountList(p, AGENTS))
  {
    var accounts := AccountList(p, AGENTS);
    forall i | 0 <= i < AGENTS ensures ok(accounts[i], i + 1) {
      assert accounts[i] == p.account(i + 1);
    }
  }

  /** The validators match the account with the id that they derive for the position. */
  function ValidatorsAccept(s: Setup): Verdict {
    (account: Uint160, i: int) => 1 <= i <= AGENTS && AgentAccepted(s, account, i)
  }

  lemma DerivedPass(s: Setup)
    ensures PlanPasses(ValidatorsAccept(s), s.Derive())
  {
    forall i | 1 <= i <= AGENTS ensures ValidatorsAccept(s)(s.Derive().account(i), i) {
      AccountsAreAccepted(s, i);
    }
  }

  // ---------- Distinct accounts ----------

  ghost predicate CollideOnly(hash160: Hash160, x: Bytes, y: Bytes) {
    hash160(x) == hash160(y) ==> x == y
  }

  /** No collision among the payloads and proxy scripts of these agents. */
  ghost predicate NoCollision(s: Setup, i: int, t: Setup, j: int)
    requires 1 <= i <= AGENTS && 1 <= j <= AGENTS
  {
    && CollideOnly(s.hash160, s.Payload(i), t.Payload(j))
    && CollideOnly(s.hash160, ProxyScript(s.core, s.Id(i)), ProxyScript(t.core, t.Id(j)))
  }

  lemma ParamsInjective(s: Setup, i: int, j: int)
    requires 1 <= i <= AGENTS && 1 <= j <= AGENTS && s.Params(i) == s.Params(j)
    ensures i == j
  {
    DigitsAt(s, i);
    DigitsAt(s, j);
  }

  function DigitsFrom(s: Setup): nat {
    7 + |s.seed| + 5 + |s.app| + 7
  }

  lemma DigitsAt(s: Setup, i: int)
    requires 1 <= i <= AGENTS
    ensures |s.Params(i)| >= DigitsFrom(s) + 2
    ensures s.Params(i)[DigitsFrom(s)] == 0x30 + i / 10
    ensures s.Params(i)[DigitsFrom(s) + 1] == 0x30 + i % 10
  {
    var digits: Bytes := [0x30 + i / 10, 0x30 + i % 10];
    var r5 := digits + (Latin(":nonce:") + Latin(s.nonce));
    var r4 := Latin(":agent:") + r5;
    var r3 := Latin(s.app) + r4;
    var r2 := Latin(":app:") + r3;
    var r1 := Latin(s.seed) + r2;
    assert s.Params(i)[7..] == r1;
    assert r1[|s.seed|..] == r2;
    assert r2[5..] == r3;
    assert r3[|s.app|..] == r4;
    assert r4[7..] == r5 && r5[0] == digits[0] && r5[1] == digits[1];
  }

  /** Two agents of one setup never share an account id or a proxy account. */
  lemma AgentsDistinct(s: Setup, i: int, j: int)
    requires 1 <= i <= AGENTS && 1 <= j <= AGENTS && i != j
    requires NoCollision(s, i, s, j)
    ensures s.Id(i) != s.Id(j) && s.Account(i) != s.Account(j)
  {
    if s.Params(i) == s.Params(j) {
      ParamsInjective(s, i, j);
    }
    DistinctByParams(s, i, s, j);
  }

  /** Different parameters give different ids, and these give different accounts. */
  lemma DistinctByParams(s: Setup, i: int, t: Setup, j: int)
    requires 1 <= i <= AGENTS && 1 <= j <= AGENTS && s.Params(i) != t.Params(j)
    requires t == s.(seed := t.seed, app := t.app) && NoCollision(s, i, t, j)
    ensures s.Id(i) != t.Id(j) && s.Account(i) != t.Account(j)
  {
    if s.Payload(i) == t.Payload(j) {
      PayloadInjective(ZERO, s.Params(i), ZERO, s.owner, TIMELOCK, ZERO, t.Params(j), ZERO, t.owner, TIMELOCK);
    }
    var x, y := s.hash160(s.Payload(i)), s.hash160(t.Payload(j));
    ReverseTwice(x);
    ReverseTwice(y);
    if ProxyScript(s.core, s.Id(i)) == ProxyScript(t.core, t.Id(j)) {
      ScriptInjective(s.core, s.Id(i), t.Id(j));
    }
    ReverseTwice(s.hash160(ProxyScript(s.core, s.Id(i))));
    ReverseTwice(s.hash160(ProxyScript(t.core, t.Id(j))));
  }

  ghost predicate PairwiseDistinct(p: Plan) {
    forall i, j :: 1 <= i < j <= AGENTS ==> p.id(i) != p.id(j) && p.account(i) != p.account(j)
  }

  /** So the plan that the loop works through has 21 ids and 21 accounts. */
  lemma PlanIsDistinct(s: Setup)
    requires forall i, j :: 1 <= i < j <= AGENTS ==> NoCollision(s, i, s, j)
    ensures PairwiseDistinct(s.Derive())
  {
    var p := s.Derive();
    forall i, j | 1 <= i < j <= AGENTS ensures p.id(i) != p.id(j) && p.account(i) != p.account(j) {
      AgentsDistinct(s, i, j);
    }
  }

  /** The two anchors of a deployment, TrustAnchor and ProfitAnchor, share no account. */
  lemma AnchorsShareNothing(trust: Setup, profit: Setup, i: int, j: int)
    requires 1 <= i <= AGENTS && 1 <= j <= AGENTS
    requires trust.seed == "trustanchor" && trust.app == "miniapp-trustanchor"
    requires profit == trust.(seed := "profitanchor", app := "miniapp-profitanchor")
    requires NoCollision(trust, i, profit, j)
    ensures trust.Id(i) != profit.Id(j) && trust.Account(i) != profit.Account(j)
  {
    assert trust.Params(i)[7] == Latin(trust.seed)[0] == 't' as int;
    assert profit.Params(j)[7] == Latin(profit.seed)[0] == 'p' as int;
    DistinctByParams(trust, i, profit, j);
  }

  // ---------- Transactions due ----------

  /** `getBackupOwner` answers zero, or "Account not found". */
  predicate AccountDue(owners: map<Uint160, Uint160>, id: Uint160) {
    id !in owners || owners[id] == ZERO
  }

  predicate AgentDue(p: Plan, agents: seq<Agent>, i: int)
    requires 1 <= i <= AGENTS
  {
    |agents| < i || agents[i - 1].account != p.account(i)
  }

  function One(due: bool): nat { if due then 1 else 0 }

  function DueAt(p: Plan, owners: map<Uint160, Uint160>, agents: seq<Agent>, i: int): nat
    requires 1 <= i <= AGENTS
  {
    One(AccountDue(owners, p.id(i))) + One(AgentDue(p, agents, i))
  }

  /** The transactions due at positions 1..k. */
  function Due(p: Plan, owners: map<Uint160, Uint160>, agents: seq<Agent>, k: nat): nat
    requires k <= AGENTS
  {
    if k == 0 then 0
    else Due(p, owners, agents, k - 1) + DueAt(p, owners, agents, k)
  }

  predicate NothingDueAt(p: Plan, owners: map<Uint160, Uint160>, agents: seq<Agent>, i: int)
    requires 1 <= i <= AGENTS
  {
    !AccountDue(owners, p.id(i)) && !AgentDue(p, agents, i)
  }

  /** Nothing is due exactly when every account has an owner and every agent its account. */
  lemma {:induction false} NothingDueIff(p: Plan, owners: map<Uint160, Uint160>, agents: seq<Agent>, k: nat)
    requires k <= AGENTS
    ensures Due(p, owners, agents, k) == 0 <==> forall i :: 1 <= i <= k ==> NothingDueAt(p, owners, agents, i)
  {
    if k > 0 {
      NothingDueIff(p, owners, agents, k - 1);
      assert DueAt(p, owners, agents, k) == 0 <==> NothingDueAt(p, owners, agents, k);
    }
  }

  ghost predicate IdsDistinct(p: Plan) {
    forall i, j :: 1 <= i < j <= AGENTS ==> p.id(i) != p.id(j)
  }

  // ---------- The chain and the run ----------

  class Chain {
    /** account id -> backup owner, at the account core */
    var owners: map<Uint160, Uint160>
    /** this app's agents at the anchor */
    var agents: seq<Agent>
    /** transactions the network took in */
    var sent: nat

    /** A transaction that may fail to be sent, fault, land unconfirmed, or be confirmed.
        A quiet chain confirms what the contract accepts; whether the core lets an id be
        registered twice is not known. */
    method RegisterAccount(id: Uint160, owner: Uint160, quiet: bool) returns (ok: bool)
      modifies this
      ensures agents == old(agents) && sent <= old(sent) + 1
      ensures owners == old(owners)[id := owner] || (!ok && owners == old(owners))
      ensures ok ==> sent == old(sent) + 1
      ensures quiet && id !in old(owners) ==> ok
    {
      var landed, confirmed := *, *;
      landed := landed || (quiet && id !in owners);
      ok := landed && (confirmed || (quiet && id !in owners));
      if landed {
        owners := owners[id := owner];
        sent := sent + 1;
      } else if * {
        sent := sent + 1;
      }
    }

    /** `registerAgent`: the anchor appends. */
    method RegisterAgent(agent: Agent, quiet: bool) returns (ok: bool)
      modifies this
      ensures owners == old(owners) && sent <= old(sent) + 1
      ensures agents == old(agents) + [agent] || (!ok && agents == old(agents))
      ensures ok ==> sent == old(sent) + 1
      ensures quiet ==> ok
    {
      var landed, confirmed := *, *;
      landed := landed || quiet;
      ok := landed && (confirmed || quiet);
      if landed {
        agents := agents + [agent];
        sent := sent + 1;
      } else if * {
        sent := sent + 1;
      }
    }

    /** A registration that an earlier run sent and gave up waiting for; whether the anchor
        would refuse an account that it holds already is not known. */
    method Land(late: Agent)
      modifies this`agents
      ensures agents == old(agents) + [late]
    {
      agents := agents + [late];
    }

    /** `setAgentAccount`: positions count from 1. */
    method SetAgent(i: int, agent: Agent, quiet: bool) returns (ok: bool)
      requires 1 <= i <= |agents|
      modifies this
      ensures owners == old(owners) && sent <= old(sent) + 1
      ensures agents == old(agents)[i - 1 := agent] || (!ok && agents == old(agents))
      ensures ok ==> sent == old(sent) + 1
      ensures quiet ==> ok
    {
      var landed, confirmed := *, *;
      landed := landed || quiet;
      ok := landed && (confirmed || quiet);
      if landed {
        agents := agents[i - 1 := agent];
        sent := sent + 1;
      } else if * {
        sent := sent + 1;
      }
    }

    /** `ensureAAAccount` */
    method EnsureAccount(p: Plan, i: int, quiet: bool) returns (ok: bool)
      requires 1 <= i <= AGENTS
      modifies this
      ensures agents == old(agents) && sent <= old(sent) + One(AccountDue(old(owners), p.id(i)))
      ensures owners == old(owners) || (AccountDue(old(owners), p.id(i)) && owners == old(owners)[p.id(i) := p.owner])
      ensures ok ==> sent == old(sent) + One(AccountDue(old(owners), p.id(i)))
      ensures ok ==> p.id(i) in owners && (AccountDue(old(owners), p.id(i)) ==> owners[p.id(i)] == p.owner)
      ensures quiet && (p.id(i) in old(owners) ==> old(owners)[p.id(i)] != ZERO) ==> ok
    {
      var id := p.id(i);
      var answered := *;
      if !answered && !quiet {
        return false;
      }
      var backup := if id in owners then owners[id] else ZERO;
      if backup != ZERO {
        return true;
      }
      ok := RegisterAccount(id, p.owner, quiet);
    }

    /** One position of the loop, after the account is ensured; `current` is the agent
        count read at the start of the run. */
    method EnsureAgent(p: Plan, i: int, current: nat, quiet: bool) returns (ok: bool)
      requires 1 <= i <= AGENTS && (i <= current ==> i <= |agents|)
      modifies this
      ensures owners == old(owners) && sent <= old(sent) + One(ChangeDue(p, old(agents), current, i))
      ensures agents == old(agents) || agents == Position(p, old(agents), current, i)
      ensures ok ==> agents == Position(p, old(agents), current, i)
      ensures ok ==> sent == old(sent) + One(ChangeDue(p, old(agents), current, i))
      ensures quiet ==> ok
    {
      if current < i {
        ok := RegisterAgent(p.Wanted(i), quiet);
        return;
      }
      var answered := *;
      if !answered && !quiet {
        return false;
      }
      if agents[i - 1].account != p.account(i) {
        ok := SetAgent(i, p.Wanted(i), quiet);
      } else {
        ok := true;
      }
    }

    /** One turn of the loop, at position i. */
    method EnsurePosition(p: Plan, i: int, current: nat, quiet: bool) returns (ok: bool)
      requires 1 <= i <= AGENTS && (i <= current ==> i <= |agents|)
      modifies this
      ensures agents == old(agents) || agents == Position(p, old(agents), current, i)
      ensures owners == old(owners) || (AccountDue(old(owners), p.id(i)) && owners == old(owners)[p.id(i) := p.owner])
      ensures sent <= old(sent) + TurnDue(p, old(owners), old(agents), current, i)
      ensures ok ==>
                && sent == old(sent) + TurnDue(p, old(owners), old(agents), current, i)
                && agents == Position(p, old(agents), current, i) && Registered(owners, p.id(i), p.owner)
      ensures quiet && (p.id(i) in old(owners) ==> old(owners)[p.id(i)] != ZERO) ==> ok
    {
      ok := EnsureAccount(p, i, quiet);
      if ok {
        ok := EnsureAgent(p, i, current, quiet);
      }
    }

    /** The same turn, seen from the start of the run. */
    method EnsureNext(p: Plan, i: int, current: nat, quiet: bool, ghost start: seq<Agent>,
                      ghost before: map<Uint160, Uint160>)
      returns (ok: bool)
      requires 1 <= i <= AGENTS && |start| == current <= AGENTS
      requires agents == Progress(p, start, i - 1) && Through(p, before, owners, i - 1)
      modifies this
      ensures agents == Progress(p, start, i) || (!ok && agents == Progress(p, start, i - 1))
      ensures KeepsOwners(before, owners) && (p.owner != ZERO && AllOwned(before) ==> AllOwned(owners))
      ensures ok ==> Through(p, before, owners, i)
      ensures ok && IdsDistinct(p) ==> sent == old(sent) + DueAt(p, before, start, i)
      ensures quiet && p.owner != ZERO && AllOwned(before) ==> ok
    {
      ProgressStep(p, start, i);
      ghost var known := owners;
      ok := EnsurePosition(p, i, current, quiet);
      ThroughStep(p, before, known, owners, i);
    }

    /** The loop of `ensureAgentSet`; `current` agents are registered when it starts. */
    method EnsurePositions(p: Plan, current: nat, quiet: bool) returns (accounts: Option<seq<Uint160>>)
      requires |agents| == current <= AGENTS
      modifies this
      ensures Reached(p, old(agents), agents)
      ensures KeepsOwners(old(owners), owners)
      ensures p.owner != ZERO && AllOwned(old(owners)) ==> AllOwned(owners)
      ensures accounts.Some? ==>
                && agents == Progress(p, old(agents), AGENTS) && accounts == Some(AccountList(p, AGENTS))
                && Through(p, old(owners), owners, AGENTS)
      ensures accounts.Some? && IdsDistinct(p) ==> sent == old(sent) + Due(p, old(owners), old(agents), AGENTS)
      ensures quiet && p.owner != ZERO && AllOwned(old(owners)) ==> accounts.Some?
    {
      assert agents == Progress(p, agents, 0);
      ghost var start, before := agents, owners;
      var list: seq<Uint160> := [];
      for i := 1 to AGENTS + 1
        invariant agents == Progress(p, start, i - 1) && Through(p, before, owners, i - 1)
        invariant IdsDistinct(p) ==> sent == old(sent) + Due(p, before, start, i - 1)
        invariant list == AccountList(p, i - 1)
      {
        var ok := EnsureNext(p, i, current, quiet, start, before);
        if !ok {
          return None;
        }
        list := list + [p.account(i)];
      }
      return Some(list);
    }

    /** `ensureAgentSet` */
    method EnsureAgentSet(p: Plan, quiet: bool) returns (accounts: Option<seq<Uint160>>)
      modifies this
      ensures |old(agents)| > AGENTS ==>
                accounts == None && agents == old(agents) && owners == old(owners) && sent == old(sent)
      ensures |old(agents)| <= AGENTS ==> Reached(p, old(agents), agents)
      ensures KeepsOwners(old(owners), owners)
      ensures p.owner != ZERO && AllOwned(old(owners)) ==> AllOwned(owners)
      ensures accounts.Some? ==>
                && |old(agents)| <= AGENTS && agents == Progress(p, old(agents), AGENTS)
                && accounts == Some(AccountList(p, AGENTS))
                && forall i :: 1 <= i <= AGENTS ==> Registered(owners, p.id(i), p.owner)
      ensures accounts.Some? && IdsDistinct(p) ==> sent == old(sent) + Due(p, old(owners), old(agents), AGENTS)
      ensures quiet && |old(agents)| <= AGENTS && p.owner != ZERO && AllOwned(old(owners)) ==> accounts.Some?
    {
      var answered := *;
      var current := |agents|;
      if current <= AGENTS {
        assert agents == Progress(p, agents, 0);
      }
      if current > AGENTS || (!answered && !quiet) {
        return None;
      }
      accounts := EnsurePositions(p, current, quiet);
    }

    /** `ensureAgentSet` or `mainnetAnchorEnsureAgentSet` with its derivation: on success
        there are 21 agents, and the validators accept each account for its position's id. */
    method EnsureAnchorAgents(s: Setup, quiet: bool) returns (accounts: Option<seq<Uint160>>)
      modifies this
      ensures accounts.Some? ==> accounts == Some(AccountsOf(agents))
      ensures accounts.Some? ==> AllPass(ValidatorsAccept(s), accounts.value)
      ensures accounts.Some? ==> OwnIds(s, agents, |old(agents)|)
      ensures quiet && |old(agents)| <= AGENTS && s.owner != ZERO && AllOwned(old(owners)) ==> accounts.Some?
    {
      ghost var start := agents;
      accounts := EnsureAgentSet(s.Derive(), quiet);
      if accounts.Some? {
        AccountsAreListed(s.Derive(), start);
        RunRegistersOwnIds(s, start);
        DerivedPass(s);
        ListPasses(ValidatorsAccept(s), s.Derive());
      }
    }
  }

  /** The accounts in the order of their positions. */
  function AccountList(p: Plan, k: nat): (r: seq<Uint160>)
    requires k <= AGENTS
    ensures |r| == k && forall i :: 1 <= i <= k ==> r[i - 1] == p.account(i)
  {
    if k == 0 then [] else AccountList(p, k - 1) + [p.account(k)]
  }

  predicate Registered(owners: map<Uint160, Uint160>, id: Uint160, owner: Uint160) {
    id in owners && (owners[id] == owner || owners[id] != ZERO)
  }

  ghost predicate AllOwned(owners: map<Uint160, Uint160>) {
    forall id :: id in owners ==> owners[id] != ZERO
  }

  ghost predicate KeepsOwners(before: map<Uint160, Uint160>, after: map<Uint160, Uint160>) {
    forall id :: id in before && before[id] != ZERO ==> id in after && after[id] == before[id]
  }

  /** After a finished run, whatever the start, a rerun has nothing to send exactly when no
      account is kept with a zero backup owner. */
  lemma RerunSendsNothingIff(p: Plan, start: seq<Agent>, owners: map<Uint160, Uint160>)
    requires |start| <= AGENTS && forall i :: 1 <= i <= AGENTS ==> p.id(i) in owners
    ensures Due(p, owners, Progress(p, start, AGENTS), AGENTS) == 0 <==>
              forall i :: 1 <= i <= AGENTS ==> owners[p.id(i)] != ZERO
  {
    var done := Progress(p, start, AGENTS);
    FinishedAgents(p, start);
    NothingDueIff(p, owners, done, AGENTS);
    forall i | 1 <= i <= AGENTS ensures NothingDueAt(p, owners, done, i) <==> owners[p.id(i)] != ZERO {
      assert done[i - 1].account == p.account(i);
    }
  }

  /** A deployment: runs stopped anywhere, then one that nothing stops, then another. */
  method Deploy(chain: Chain, p: Plan, interrupted: nat) returns (done: seq<Agent>, again: nat)
    requires |chain.agents| <= AGENTS && p.owner != ZERO && IdsDistinct(p) && AllOwned(chain.owners)
    modifies chain
    ensures done == chain.agents == Progress(p, old(chain.agents), AGENTS) && again == 0
    ensures AllOwned(chain.owners) && KeepsOwners(old(chain.owners), chain.owners)
  {
    ghost var start, before := chain.agents, chain.owners;
    assert start == Progress(p, start, 0);
    for run := 0 to interrupted
      invariant Reached(p, start, chain.agents) && |chain.agents| <= AGENTS
      invariant AllOwned(chain.owners) && KeepsOwners(before, chain.owners)
    {
      ghost var now := chain.agents;
      var accounts := chain.EnsureAgentSet(p, false);
      ReachedAgain(p, start, now, chain.agents);
    }
    ghost var now := chain.agents;
    var accounts := chain.EnsureAgentSet(p, true);
    assert Reached(p, now, chain.agents);
    ReachedAgain(p, start, now, chain.agents);
    done := chain.agents;
    RerunSendsNothingIff(p, start, chain.owners);
    ProgressResumes(p, start, AGENTS, AGENTS);
    var sent := chain.sent;
    accounts := chain.EnsureAgentSet(p, true);
    again := chain.sent - sent;
  }

  /** The account core after positions 1..k, from what it was before the run. */
  ghost predicate Through(p: Plan, before: map<Uint160, Uint160>, owners: map<Uint160, Uint160>, k: nat)
    requires k <= AGENTS
  {
    && KeepsOwners(before, owners)
    && (forall j :: 1 <= j <= k ==> Registered(owners, p.id(j), p.owner))
    && (IdsDistinct(p) ==> forall j :: k < j <= AGENTS ==> AccountDue(owners, p.id(j)) == AccountDue(before, p.id(j)))
    && (p.owner != ZERO && AllOwned(before) ==> AllOwned(owners))
  }

  lemma ThroughStep(p: Plan, before: map<Uint160, Uint160>, known: map<Uint160, Uint160>,
                    owners: map<Uint160, Uint160>, i: int)
    requires 1 <= i <= AGENTS && Through(p, before, known, i - 1)
    requires owners == known || (AccountDue(known, p.id(i)) && owners == known[p.id(i) := p.owner])
    ensures KeepsOwners(before, owners)
    ensures p.owner != ZERO && AllOwned(before) ==> AllOwned(owners)
    ensures IdsDistinct(p) ==> AccountDue(known, p.id(i)) == AccountDue(before, p.id(i))
    ensures Registered(owners, p.id(i), p.owner) ==> Through(p, before, owners, i)
  {}

  /** A turn at position i sends a registration or a change. */
  predicate ChangeDue(p: Plan, agents: seq<Agent>, current: nat, i: int)
    requires 1 <= i <= AGENTS && (i <= current ==> i <= |agents|)
  {
    current < i || agents[i - 1].account != p.account(i)
  }

  function TurnDue(p: Plan, owners: map<Uint160, Uint160>, agents: seq<Agent>, current: nat, i: int): nat
    requires 1 <= i <= AGENTS && (i <= current ==> i <= |agents|)
  {
    One(AccountDue(owners, p.id(i))) + One(ChangeDue(p, agents, current, i))
  }

  /** The agents after a turn at position i of a run that counted `current`. */
  function Position(p: Plan, agents: seq<Agent>, current: nat, i: int): seq<Agent>
    requires 1 <= i <= AGENTS && (i <= current ==> i <= |agents|)
  {
    if current < i then agents + [p.Wanted(i)]
    else if agents[i - 1].account != p.account(i) then agents[i - 1 := p.Wanted(i)]
    else agents
  }

  lemma ProgressStep(p: Plan, start: seq<Agent>, i: int)
    requires 1 <= i <= AGENTS && |start| <= AGENTS
    ensures var now := Progress(p, start, i - 1);
            && (if i <= |start| then |now| == |start| else |now| == i - 1)
            && ChangeDue(p, now, |start|, i) == AgentDue(p, start, i)
            && Position(p, now, |start|, i) == Progress(p, start, i)
  {}

  // ---------- A transaction of an interrupted run that lands late ----------

  /** The agents with one more, put in front of the last ones. */
  function Inserted(agents: seq<Agent>, at: nat, late: Agent): seq<Agent>
    requires at <= |agents|
  {
    agents[..at] + [late] + agents[at..]
  }

  /** A run that has passed positions 1..k, where a registration of an earlier run landed
      after position m. */
  function Overtaken(p: Plan, start: seq<Agent>, late: Agent, m: nat, k: nat): (r: seq<Agent>)
    requires m <= k <= AGENTS && |start| <= AGENTS
    ensures |r| == Max(k, |start|) + 1
  {
    Inserted(Progress(p, start, k), Max(m, |start|), late)
  }

  lemma OvertakenStep(p: Plan, start: seq<Agent>, late: Agent, m: nat, i: nat)
    requires m < i <= AGENTS && |start| <= AGENTS
    ensures Position(p, Overtaken(p, start, late, m, i - 1), |start|, i) == Overtaken(p, start, late, m, i)
  {
    var now := Overtaken(p, start, late, m, i - 1);
    ProgressStep(p, start, i);
    if i <= |start| {
      assert now[i - 1] == Progress(p, start, i - 1)[i - 1];
    }
  }

  /** It landed before the run counted the agents: it makes no difference. */
  lemma LandedBeforeCount(p: Plan, start: seq<Agent>)
    requires |start| < AGENTS
    ensures Progress(p, start + [p.Wanted(|start| + 1)], AGENTS) == Progress(p, start, AGENTS)
  {
    var more := start + [p.Wanted(|start| + 1)];
    forall i: int | 1 <= i <= AGENTS ensures Settled(p, more, i) == Settled(p, start, i) {
      if i <= |start| { assert more[i - 1] == start[i - 1]; }
    }
  }

  /** A change of account that lands late makes none at any time: the run settles it too. */
  lemma LateChange(p: Plan, start: seq<Agent>, i: int, k: nat)
    requires 1 <= i <= |start| <= AGENTS && k <= AGENTS && start[i - 1].account != p.account(i)
    ensures Progress(p, Progress(p, start, k)[i - 1 := p.Wanted(i)], AGENTS) == Progress(p, start, AGENTS)
  {
    var now := Progress(p, start, k);
    var changed := now[i - 1 := p.Wanted(i)];
    forall j: int | 1 <= j <= AGENTS ensures Settled(p, changed, j) == Settled(p, start, j) {
      if j <= k { assert now[j - 1] == Settled(p, start, j); }
    }
  }

  /** It landed after the count: the registered agent is there twice, and every later agent
      is one position further than its account id says. */
  lemma LandedAfterCount(p: Plan, start: seq<Agent>, m: nat)
    requires |start| < AGENTS && m <= AGENTS
    ensures var late := p.Wanted(|start| + 1);
            var done := Overtaken(p, start, late, m, AGENTS);
            && |done| == AGENTS + 1
            && (exists i, j :: 0 <= i < j < |done| && done[i] == done[j] == late)
            && forall i :: Max(m, |start|) < i <= AGENTS ==> done[i] == p.Wanted(i)
  {
    var late, n := p.Wanted(|start| + 1), Max(m, |start|);
    var done := Overtaken(p, start, late, m, AGENTS);
    var full := Progress(p, start, AGENTS);
    assert full[|start|] == late;
    if n == |start| {
      assert done[n] == late && done[n + 1] == full[n];
    } else {
      assert done[|start|] == full[|start|] && done[n] == late;
    }
    forall i | n < i <= AGENTS ensures done[i] == p.Wanted(i) {
      assert done[i] == full[i - 1] == Settled(p, start, i);
    }
  }

  /** The rerun after its first k turns. */
  function RerunState(p: Plan, start: seq<Agent>, late: Agent, m: nat, k: nat): seq<Agent>
    requires k <= AGENTS && |start| <= AGENTS
  {
    if k <= m then Progress(p, start, k) else Overtaken(p, start, late, m, k)
  }

  /** One turn of the rerun; the registration lands in front of turn m + 1. */
  method OvertakenTurn(chain: Chain, p: Plan, ghost start: seq<Agent>, current: nat, late: Agent, m: nat, i: int)
    requires 1 <= i <= AGENTS && |start| == current <= AGENTS && p.owner != ZERO && AllOwned(chain.owners)
    requires chain.agents == RerunState(p, start, late, m, i - 1)
    modifies chain
    ensures chain.agents == RerunState(p, start, late, m, i) && AllOwned(chain.owners)
  {
    if i == m + 1 {
      chain.Land(late);
      LandedNow(p, start, late, m);
    }
    if i > m {
      OvertakenStep(p, start, late, m, i);
    } else {
      ProgressStep(p, start, i);
    }
    var ok := chain.EnsurePosition(p, i, current, true);
  }

  lemma LandedNow(p: Plan, start: seq<Agent>, late: Agent, m: nat)
    requires m <= AGENTS && |start| <= AGENTS
    ensures Progress(p, start, m) + [late] == Overtaken(p, start, late, m, m)
  {}

  /** The rerun after a registration that was given up, which lands after position m: the
      rerun succeeds, with 22 agents, and every later run refuses them. */
  method RerunOvertaken(chain: Chain, p: Plan, m: nat)
    returns (accounts: Option<seq<Uint160>>, again: Option<seq<Uint160>>)
    requires |chain.agents| < AGENTS && m <= AGENTS && p.owner != ZERO && AllOwned(chain.owners)
    modifies chain
    ensures accounts == Some(AccountList(p, AGENTS)) && again == None
    ensures chain.agents == Overtaken(p, old(chain.agents), p.Wanted(|old(chain.agents)| + 1), m, AGENTS)
  {
    ghost var start := chain.agents;
    var current := |chain.agents|;
    var late := p.Wanted(current + 1);
    assert start == Progress(p, start, 0);
    var list: seq<Uint160> := [];
    for i := 1 to AGENTS + 1
      invariant chain.agents == RerunState(p, start, late, m, i - 1)
      invariant AllOwned(chain.owners) && list == AccountList(p, i - 1)
    {
      OvertakenTurn(chain, p, start, current, late, m, i);
      list := list + [p.account(i)];
    }
    if m == AGENTS {
      chain.Land(late);
      LandedNow(p, start, late, m);
    }
    accounts := Some(list);
    again := chain.EnsureAgentSet(p, true);
  }
}
