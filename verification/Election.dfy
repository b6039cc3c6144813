/** Time-bounded leadership with fencing terms.

    Times are counted from the zero time, where an election that granted nothing expires. Terms wrap like the
    64-bit counters they are, so the results hold for runs of fewer than 2^64 calls. */
module Elections {

  import opened Bytes

  const TERM_MODULUS: nat := 0x1_0000_0000_0000_0000

  datatype Leadership = Leadership(node: Str, term: nat, expires: nat)

  datatype Answer = NodeRequired | NotLeader | Granted(leadership: Leadership)

  const NOBODY := Leadership([], 0, 0)

  predicate Live(current: Leadership, now: nat) { now < current.expires }

  function CampaignAnswer(trim: Str -> Str, duration: nat, current: Leadership, node: Str, now: nat): Answer {
    var id := trim(node);
    if id == [] then NodeRequired
    else if Live(current, now) && current.node != id then NotLeader
    else
      var term := if current.node != id || !Live(current, now) then (current.term + 1) % TERM_MODULUS else current.term;
      Granted(Leadership(id, term, now + duration))
  }

  predicate Valid(trim: Str -> Str, current: Leadership, node: Str, term: nat, now: nat) {
    current.node == trim(node) && current.term == term && Live(current, now)
  }

  function RenewAnswer(trim: Str -> Str, duration: nat, current: Leadership, node: Str, term: nat, now: nat): Answer {
    if Valid(trim, current, node, term, now) then Granted(current.(expires := now + duration)) else NotLeader
  }

  class Election {
    const duration: nat
    const trim: Str -> Str
    var current: Leadership

    constructor (duration: nat, trim: Str -> Str)
      requires duration > 0
      ensures this.duration == duration && this.trim == trim && current == NOBODY
    {
      this.duration, this.trim, current := duration, trim, NOBODY;
    }

    method Campaign(node: Str, now: nat) returns (answer: Answer)
      modifies this
      ensures answer == CampaignAnswer(trim, duration, old(current), node, now)
      ensures current == if answer.Granted? then answer.leadership else old(current)
    {
      var id := trim(node);
      if id == [] { return NodeRequired; }
      if now < current.expires && current.node != id { return NotLeader; }
      if current.node != id || !(now < current.expires) {
        current := current.(term := (current.term + 1) % TERM_MODULUS);
      }
      current := current.(node := id, expires := now + duration);
      return Granted(current);
    }

    method Renew(node: Str, term: nat, now: nat) returns (answer: Answer)
      modifies this
      ensures answer == RenewAnswer(trim, duration, old(current), node, term, now)
      ensures current == if answer.Granted? then answer.leadership else old(current)
    {
      if current.node != trim(node) || current.term != term || !(now < current.expires) { return NotLeader; }
      current := current.(expires := now + duration);
      return Granted(current);
    }

    method Validate(node: Str, term: nat, now: nat) returns (ok: bool)
      ensures ok == Valid(trim, current, node, term, now)
    {
      return !(current.node != trim(node) || current.term != term || !(now < current.expires));
    }

    method Current(now: nat) returns (leadership: Leadership)
      ensures leadership == if Live(current, now) then current else NOBODY
    {
      if !(now < current.expires) { return NOBODY; }
      return current;
    }
  }

  // ---------------------------------------------------------------------------
  // Runs

  datatype Call = Campaign(node: Str, now: nat) | Renew(node: Str, term: nat, now: nat)

  /** A granted or renewed lease, valid from `start` until its leadership expires. */
  datatype Lease = Lease(leadership: Leadership, start: nat)

  datatype History = History(current: Leadership, leases: seq<Lease>)

  function AnswerTo(trim: Str -> Str, duration: nat, current: Leadership, call: Call): Answer {
    match call
    case Campaign(node, now) => CampaignAnswer(trim, duration, current, node, now)
    case Renew(node, term, now) => RenewAnswer(trim, duration, current, node, term, now)
  }

  function After(trim: Str -> Str, duration: nat, h: History, call: Call): History {
    var answer := AnswerTo(trim, duration, h.current, call);
    if answer.Granted? then History(answer.leadership, h.leases + [Lease(answer.leadership, call.now)]) else h
  }

  function Run(trim: Str -> Str, duration: nat, calls: seq<Call>): History {
    if calls == [] then History(NOBODY, [])
    else After(trim, duration, Run(trim, duration, calls[..|calls| - 1]), calls[|calls| - 1])
  }

  ghost predicate Fenced(h: History) {
    && (h.leases == [] ==> h.current == NOBODY)
    && (h.leases != [] ==> h.current == h.leases[|h.leases| - 1].leadership)
    && (forall i :: 0 <= i < |h.leases| ==> 0 < h.leases[i].leadership.term <= h.current.term)
    && (forall i, j :: 0 <= i < j < |h.leases| ==> h.leases[i].leadership.term <= h.leases[j].leadership.term)
    && (forall i, j :: 0 <= i < j < |h.leases| && h.leases[i].leadership.term == h.leases[j].leadership.term ==>
          h.leases[i].leadership.node == h.leases[j].leadership.node)
  }

  /** A grant keeps the term only for the node that holds it, and otherwise takes the next one. */
  lemma GrantTakesNextTerm(trim: Str -> Str, duration: nat, current: Leadership, call: Call)
    requires current.term + 1 < TERM_MODULUS
    ensures var answer := AnswerTo(trim, duration, current, call);
      answer.Granted? ==>
        || (answer.leadership.term == current.term && answer.leadership.node == current.node && Live(current, call.now))
        || (answer.leadership.term == current.term + 1 &&
          !(answer.leadership.node != current.node && Live(current, call.now)))
  {
  }

  lemma FencedStep(trim: Str -> Str, duration: nat, h: History, call: Call)
    requires Fenced(h) && h.current.term + 1 < TERM_MODULUS
    ensures Fenced(After(trim, duration, h, call))
    ensures After(trim, duration, h, call).current.term <= h.current.term + 1
  {
    GrantTakesNextTerm(trim, duration, h.current, call);
    hide AnswerTo;
  }

  /** Whatever the clock does, terms never decrease along a run and each term belongs to one node. */
  lemma {:induction false} TermsFence(trim: Str -> Str, duration: nat, calls: seq<Call>)
    requires |calls| < TERM_MODULUS
    ensures Fenced(Run(trim, duration, calls))
    ensures Run(trim, duration, calls).current.term <= |calls|
  {
    if calls != [] {
      TermsFence(trim, duration, calls[..|calls| - 1]);
      FencedStep(trim, duration, Run(trim, duration, calls[..|calls| - 1]), calls[|calls| - 1]);
    }
  }

  /** Once a newer term is granted, no node passes validation with the older one, at any time; and only the node a
      term was granted to ever passes with it. */
  lemma OldTermsStayInvalid(trim: Str -> Str, duration: nat, calls: seq<Call>, i: nat, node: Str, now: nat)
    requires |calls| < TERM_MODULUS
    requires i < |Run(trim, duration, calls).leases|
    ensures var h := Run(trim, duration, calls);
      var lease := h.leases[i].leadership;
      Valid(trim, h.current, node, lease.term, now) ==>
        && trim(node) == lease.node
        && (forall j :: 0 <= j < |h.leases| ==> h.leases[j].leadership.term <= lease.term)
  {
    TermsFence(trim, duration, calls);
  }

  ghost predicate ClockNeverGoesBack(calls: seq<Call>) {
    forall i, j :: 0 <= i < j < |calls| ==> calls[i].now <= calls[j].now
  }

  /** Seen at time `now`: each lease ends by the time a later one of another node starts, and none outlasts the
      current one. */
  ghost predicate Disjoint(h: History, now: nat, duration: nat) {
    && h.current.expires <= now + duration
    && (forall i :: 0 <= i < |h.leases| ==>
         h.leases[i].start <= now && h.leases[i].leadership.expires <= h.current.expires)
    && (forall i, j :: 0 <= i < j < |h.leases| && h.leases[i].leadership.node != h.leases[j].leadership.node ==>
          h.leases[i].leadership.expires <= h.leases[j].start)
  }

  lemma DisjointStep(trim: Str -> Str, duration: nat, h: History, now: nat, call: Call)
    requires Fenced(h) && h.current.term + 1 < TERM_MODULUS
    requires Disjoint(h, now, duration) && now <= call.now
    ensures Disjoint(After(trim, duration, h, call), call.now, duration)
  {
    var r := After(trim, duration, h, call);
    if r != h {
      GrantTakesNextTerm(trim, duration, h.current, call);
      assert r.current.expires == call.now + duration;
      hide AnswerTo;
      forall i | 0 <= i < |h.leases| && h.leases[i].leadership.node != r.current.node
        ensures h.leases[i].leadership.expires <= call.now
      {
        // Either the current lease had run out, or its holder keeps it and an earlier holder ended before it.
        if Live(h.current, call.now) {
          assert h.leases[i].leadership.expires <= h.leases[|h.leases| - 1].start;
        }
      }
    }
  }

  /** With a clock that never goes back, leases held by different nodes never overlap. */
  lemma {:induction false} LeasesNeverOverlap(trim: Str -> Str, duration: nat, calls: seq<Call>)
    requires |calls| < TERM_MODULUS && ClockNeverGoesBack(calls)
    ensures Disjoint(Run(trim, duration, calls), if calls == [] then 0 else calls[|calls| - 1].now, duration)
  {
    if calls != [] {
      var before, call := calls[..|calls| - 1], calls[|calls| - 1];
      LeasesNeverOverlap(trim, duration, before);
      TermsFence(trim, duration, before);
      DisjointStep(trim, duration, Run(trim, duration, before), if before == [] then 0 else before[|before| - 1].now,
        call);
    }
  }

  // ---------------------------------------------------------------------------
  // When a call is granted

  /** A campaign succeeds for a node with an ID when nobody else holds a lease. The holder keeps its term; everyone
      else, and a holder whose lease has run out, gets the next one. The lease runs for the full duration from now. */
  lemma CampaignGrantedIff(trim: Str -> Str, duration: nat, current: Leadership, node: Str, now: nat)
    ensures var answer, held := CampaignAnswer(trim, duration, current, node, now), now < current.expires;
      && (answer.Granted? <==> trim(node) != [] && (!held || current.node == trim(node)))
      && (answer == NodeRequired <==> trim(node) == [])
      && (answer.Granted? ==> answer.leadership == Leadership(trim(node),
            if held then current.term else (current.term + 1) % 0x1_0000_0000_0000_0000, now + duration))
  {
  }

  /** A renewal succeeds for the holder of the current term before it runs out, and moves only its end. */
  lemma RenewGrantedIff(trim: Str -> Str, duration: nat, current: Leadership, node: Str, term: nat, now: nat)
    ensures var answer := RenewAnswer(trim, duration, current, node, term, now);
      && (answer.Granted? <==> trim(node) == current.node && term == current.term && now < current.expires)
      && (answer.Granted? ==> answer.leadership == Leadership(current.node, current.term, now + duration))
      && answer != NodeRequired
  {
  }

  /** After a granted campaign, exactly its node validates, with exactly its term, until the duration is over. */
  lemma GrantValidates(trim: Str -> Str, duration: nat, current: Leadership, node: Str, now: nat, other: Str, term: nat,
      later: nat)
    requires CampaignAnswer(trim, duration, current, node, now).Granted?
    ensures var l := CampaignAnswer(trim, duration, current, node, now).leadership;
      Valid(trim, l, other, term, later) <==> trim(other) == trim(node) && term == l.term && later < now + duration
  {
  }

  /** Whatever other nodes call before a lease has run out, it stays with its holder. */
  lemma {:induction false} HolderIsUndisturbed(trim: Str -> Str, duration: nat, calls: seq<Call>, others: seq<Call>)
    requires var current := Run(trim, duration, calls).current;
      forall i :: 0 <= i < |others| ==> others[i].now < current.expires && trim(others[i].node) != current.node
    ensures Run(trim, duration, calls + others) == Run(trim, duration, calls)
    decreases |others|
  {
    if others == [] {
      assert calls + others == calls;
    } else {
      var init, last := others[..|others| - 1], others[|others| - 1];
      assert (calls + others)[..|calls + others| - 1] == calls + init;
      assert last == others[|others| - 1];
      HolderIsUndisturbed(trim, duration, calls, init);
    }
  }
}
