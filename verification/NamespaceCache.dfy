/**
 The lazily filled cache of namespace repositories, `namespace_repo` in
 `crates/agentstategraph-mcp/src/auth.rs`, under every interleaving of its three steps:
 look in the cache, build a repository, insert it if there is still none.
 */
module NamespaceCache {
  import opened Namespaces

  /** A repository as its holders can tell it from others: two builds never share a handle. */
  datatype Repo = Repo(handle: nat, namespace: string, branchesOnly: bool)

  datatype Answer = Served(repo: Repo) | BadKeyNamespace

  /** Where a request is in its lookup. */
  datatype Phase =
    | Missed(ns: string)
    | Built(ns: string, repo: Repo)
    | Answered(ns: string, answer: Answer)

  /** `built` counts the repositories built so far. */
  datatype State = State(cache: map<string, Repo>, built: nat, requests: map<nat, Phase>)

  datatype Event =
    | Look(request: nat, ns: string)
    | Build(request: nat)
    | InsertIfAbsent(request: nat)

  const Empty := State(map[], 0, map[])

  function Moved(s: State, request: nat, phase: Phase): State {
    s.(requests := s.requests[request := phase])
  }

  function AfterLook(s: State, request: nat, ns: string): State {
    Moved(s, request, if ns in s.cache then Answered(ns, Served(s.cache[ns])) else Missed(ns))
  }

  function AfterBuild(s: State, request: nat, ns: string): State {
    if ValidName(ns)
    then Moved(s, request, Built(ns, Repo(s.built, ns, true))).(built := s.built + 1)
    else Moved(s, request, Answered(ns, BadKeyNamespace))
  }

  function AfterInsert(s: State, request: nat, ns: string, repo: Repo): State {
    var cache := if ns in s.cache then s.cache else s.cache[ns := repo];
    Moved(s, request, Answered(ns, Served(cache[ns]))).(cache := cache)
  }

  ghost predicate Next(s: State, e: Event, t: State) {
    match e
    case Look(r, ns) => r !in s.requests && t == AfterLook(s, r, ns)
    case Build(r) => r in s.requests && s.requests[r].Missed? && t == AfterBuild(s, r, s.requests[r].ns)
    case InsertIfAbsent(r) =>
      r in s.requests && s.requests[r].Built? && t == AfterInsert(s, r, s.requests[r].ns, s.requests[r].repo)
  }

  ghost predicate StepAt(states: seq<State>, events: seq<Event>, i: nat)
    requires i < |events| < |states|
  {
    Next(states[i], events[i], states[i + 1])
  }

  ghost predicate Run(states: seq<State>, events: seq<Event>) {
    && |states| == |events| + 1
    && states[0] == Empty
    && forall i :: 0 <= i < |events| ==> StepAt(states, events, i)
  }

  // ----- what every step keeps

  predicate ForkOf(repo: Repo, ns: string) {
    repo.namespace == ns && repo.branchesOnly && ValidName(ns)
  }

  /** A request holds a repository it built for its own namespace, or was told the truth. */
  predicate PhaseHolds(s: State, phase: Phase) {
    match phase
    case Missed(_) => true
    case Built(ns, repo) => ForkOf(repo, ns) && repo.handle < s.built
    case Answered(ns, Served(repo)) => ns in s.cache && s.cache[ns] == repo
    case Answered(ns, BadKeyNamespace) => !ValidName(ns)
  }

  ghost predicate Coherent(s: State) {
    && (forall ns :: ns in s.cache ==> ForkOf(s.cache[ns], ns) && s.cache[ns].handle < s.built)
    && (forall r :: r in s.requests ==> PhaseHolds(s, s.requests[r]))
  }

  /** Entries are added, never replaced. */
  ghost predicate Grows(s: State, t: State) {
    && (forall ns :: ns in s.cache ==> ns in t.cache && t.cache[ns] == s.cache[ns])
    && s.built <= t.built
    && (forall r :: r in s.requests && s.requests[r].Answered? ==> r in t.requests && t.requests[r] == s.requests[r])
  }

  lemma PhaseSurvives(s: State, t: State, phase: Phase)
    requires Grows(s, t) && PhaseHolds(s, phase)
    ensures PhaseHolds(t, phase)
  {
  }

  lemma NextIsCoherent(s: State, e: Event, t: State)
    requires Coherent(s) && Next(s, e, t)
    ensures Coherent(t) && Grows(s, t)
  {
    forall r | r in t.requests && r != e.request ensures PhaseHolds(t, t.requests[r]) {
      PhaseSurvives(s, t, s.requests[r]);
    }
  }

  lemma {:induction false} RunIsCoherent(states: seq<State>, events: seq<Event>, i: nat)
    requires Run(states, events) && i < |states|
    ensures Coherent(states[i])
    decreases i
  {
    if i > 0 {
      RunIsCoherent(states, events, i - 1);
      assert StepAt(states, events, i - 1);
      NextIsCoherent(states[i - 1], events[i - 1], states[i]);
    }
  }

  /** A cached repository stays cached, and an answer once given stands. */
  lemma {:induction false} CacheIsNeverReplaced(states: seq<State>, events: seq<Event>, i: nat, j: nat)
    requires Run(states, events) && i <= j < |states|
    ensures Grows(states[i], states[j])
    decreases j - i
  {
    if i < j {
      CacheIsNeverReplaced(states, events, i, j - 1);
      RunIsCoherent(states, events, j - 1);
      assert StepAt(states, events, j - 1);
      NextIsCoherent(states[j - 1], events[j - 1], states[j]);
    }
  }

  ghost predicate Got(s: State, r: nat, ns: string, answer: Answer) {
    r in s.requests && s.requests[r] == Answered(ns, answer)
  }

  /**
   Two lookups of one namespace, answered at any two moments of any run, get the same answer:
   the branch-names-only fork for that namespace, or a refusal if the name is not valid.
   */
  lemma LookupsAgree(
    states: seq<State>, events: seq<Event>, ns: string, i: nat, q: nat, a: Answer, j: nat, r: nat, b: Answer)
    requires Run(states, events) && i < |states| && j < |states|
    requires Got(states[i], q, ns, a) && Got(states[j], r, ns, b)
    ensures a == b
    ensures a.Served? <==> ValidName(ns)
    ensures a.Served? ==> ForkOf(a.repo, ns)
  {
    RunIsCoherent(states, events, i);
    RunIsCoherent(states, events, j);
    assert PhaseHolds(states[i], states[i].requests[q]) && PhaseHolds(states[j], states[j].requests[r]);
    if i <= j {
      CacheIsNeverReplaced(states, events, i, j);
    } else {
      CacheIsNeverReplaced(states, events, j, i);
    }
  }
}
