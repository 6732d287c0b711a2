/** Work per post, over every interleaving of queueing, claiming, finishing, failing, crashing and
    stale resets, with one worker at a time. */
module PostMachine {
  import opened Wrappers
  import opened Text
  import opened PostQueue

  /** The queue, the post the worker is busy with, and what has happened to each post: claims and
      stale resets since it was last queued; claims, resets and queueings over its whole life; and
      the attempts those queueings allow. */
  datatype Tally = Tally(claims: nat, resets: nat, allClaims: nat, allResets: nat, queueings: nat, allowance: nat)

  const UNKNOWN := Tally(0, 0, 0, 0, 0, 0)

  datatype Machine = Machine(posts: Posts, busy: Option<string>, tally: map<string, Tally>)

  datatype Step =
    | Enqueue(source: string, g: Gathered, wall: Time)
    | Claim(uid: string, wall: Time)
    | Finish(ending: Ending, wall: Time)
    | Crash
    | Reset(uid: string, wall: Time)

  function TallyOf(m: Machine, uid: string): Tally {
    if uid in m.tally then m.tally[uid] else UNKNOWN
  }

  function Queueing(t: Tally, maxAttempts: nat): Tally {
    t.(claims := 0, resets := 0, queueings := t.queueings + 1, allowance := t.allowance + maxAttempts)
  }

  /** One transaction.  `Finish` is the end of `process_one` after the slow model call: it looks the
      post up again but does not check that it is still in progress.  `Reset` is one post of a
      stale-reset pass. */
  function Next(m: Machine, step: Step, maxAttempts: nat): Machine {
    match step
    case Enqueue(source, g, wall) =>
      var tally :=
        if Enqueues(m.posts, g) then m.tally[g.uid.value := Queueing(TallyOf(m, g.uid.value), maxAttempts)]
        else m.tally;
      Machine(EnqueueOne(m.posts, source, g, wall), m.busy, tally)
    case Claim(uid, wall) =>
      if m.busy.Some? || uid !in m.posts || m.posts[uid].status != Pending then m
      else
        var t := TallyOf(m, uid);
        Machine(m.posts[uid := Claimed(m.posts[uid], wall)], Some(uid),
                m.tally[uid := t.(claims := t.claims + 1, allClaims := t.allClaims + 1)])
    case Finish(ending, wall) =>
      if m.busy.None? then m
      else if m.busy.value !in m.posts then m.(busy := None)
      else
        var p := m.posts[m.busy.value];
        m.(posts := m.posts[m.busy.value := AfterEnding(p, ending, maxAttempts, wall)], busy := None)
    case Crash => m.(busy := None)
    case Reset(uid, wall) =>
      if uid !in m.posts || m.posts[uid].status != Processing then m
      else
        var t := TallyOf(m, uid);
        m.(posts := m.posts[uid := m.posts[uid].(status := Pending, updatedAt := wall)],
           tally := m.tally[uid := t.(resets := t.resets + 1, allResets := t.allResets + 1)])
  }

  const EMPTY := Machine(map[], None, map[])

  function Run(steps: seq<Step>, maxAttempts: nat): Machine {
    if steps == [] then EMPTY else Next(Run(Front(steps), maxAttempts), Last(steps), maxAttempts)
  }

  /** How claims relate to attempts and resets, by status. */
  ghost predicate Bounded(p: Post, t: Tally, maxAttempts: nat) {
    && (Open(p.status) ==> p.attempts < maxAttempts)
    && (p.status == Pending ==> t.claims <= p.attempts + t.resets)
    && (p.status == Processing ==> t.claims <= p.attempts + t.resets + 1)
    && t.claims <= maxAttempts + t.resets
    && t.resets <= t.allResets && t.claims <= t.allClaims
    && t.allClaims - t.claims <= (t.allowance - maxAttempts) + (t.allResets - t.resets)
  }

  ghost predicate Inv(m: Machine, maxAttempts: nat) {
    && (forall uid :: uid in m.posts ==> Bounded(m.posts[uid], TallyOf(m, uid), maxAttempts))
    && (forall uid :: uid !in m.posts ==> uid !in m.tally)
    && (m.busy.Some? ==> m.busy.value in m.posts && Open(m.posts[m.busy.value].status))
  }

  /** A post queued anew starts a fresh allowance; what it spent before stays within the old ones. */
  lemma QueueingKeeps(p: Post, t: Tally, p': Post, maxAttempts: nat)
    requires Bounded(p, t, maxAttempts) && maxAttempts >= 1
    requires p'.status == Pending && p'.attempts == 0
    ensures Bounded(p', Queueing(t, maxAttempts), maxAttempts)
  {
  }

  lemma FirstQueueing(p: Post, maxAttempts: nat)
    requires p.status == Pending && p.attempts == 0 && maxAttempts >= 1
    ensures Bounded(p, Queueing(UNKNOWN, maxAttempts), maxAttempts)
  {
  }

  lemma EnqueueKeeps(m: Machine, source: string, g: Gathered, wall: Time, maxAttempts: nat)
    requires Inv(m, maxAttempts) && maxAttempts >= 1
    ensures Inv(Next(m, Enqueue(source, g, wall), maxAttempts), maxAttempts)
  {
    if Enqueues(m.posts, g) {
      var uid, p' := g.uid.value, EnqueueOne(m.posts, source, g, wall)[g.uid.value];
      if uid in m.posts {
        QueueingKeeps(m.posts[uid], TallyOf(m, uid), p', maxAttempts);
      } else {
        FirstQueueing(p', maxAttempts);
      }
    } else if HasUid(g) {
      assert Bounded(m.posts[g.uid.value], TallyOf(m, g.uid.value), maxAttempts);
    }
  }

  lemma FinishKeeps(p: Post, t: Tally, ending: Ending, maxAttempts: nat, wall: Time)
    requires Bounded(p, t, maxAttempts) && Open(p.status)
    ensures Bounded(AfterEnding(p, ending, maxAttempts, wall), t, maxAttempts)
  {
    if ending.Decide? { DecisionsAreFinal(ending.d); }
  }

  lemma ClaimKeeps(p: Post, t: Tally, maxAttempts: nat, wall: Time)
    requires Bounded(p, t, maxAttempts) && p.status == Pending
    ensures Bounded(Claimed(p, wall), t.(claims := t.claims + 1, allClaims := t.allClaims + 1), maxAttempts)
  {
  }

  lemma ResetKeeps(p: Post, t: Tally, maxAttempts: nat, wall: Time)
    requires Bounded(p, t, maxAttempts) && p.status == Processing
    ensures Bounded(
      p.(status := Pending, updatedAt := wall), t.(resets := t.resets + 1, allResets := t.allResets + 1), maxAttempts)
  {
  }

  lemma ResetStepKeeps(m: Machine, uid: string, wall: Time, maxAttempts: nat)
    requires Inv(m, maxAttempts)
    ensures Inv(Next(m, Reset(uid, wall), maxAttempts), maxAttempts)
  {
    if uid in m.posts && m.posts[uid].status == Processing {
      ResetKeeps(m.posts[uid], TallyOf(m, uid), maxAttempts, wall);
    }
  }

  lemma ClaimStepKeeps(m: Machine, uid: string, wall: Time, maxAttempts: nat)
    requires Inv(m, maxAttempts)
    ensures Inv(Next(m, Claim(uid, wall), maxAttempts), maxAttempts)
  {
    if uid in m.posts && m.posts[uid].status == Pending {
      ClaimKeeps(m.posts[uid], TallyOf(m, uid), maxAttempts, wall);
    }
  }

  lemma StepKeeps(m: Machine, step: Step, maxAttempts: nat)
    requires Inv(m, maxAttempts) && maxAttempts >= 1
    ensures Inv(Next(m, step, maxAttempts), maxAttempts)
  {
    match step
    case Enqueue(source, g, wall) => EnqueueKeeps(m, source, g, wall, maxAttempts);
    case Claim(uid, wall) => ClaimStepKeeps(m, uid, wall, maxAttempts);
    case Finish(ending, wall) =>
      if m.busy.Some? { FinishKeeps(m.posts[m.busy.value], TallyOf(m, m.busy.value), ending, maxAttempts, wall); }
    case Crash =>
    case Reset(uid, wall) => ResetStepKeeps(m, uid, wall, maxAttempts);
  }

  lemma {:induction false} RunKeeps(steps: seq<Step>, maxAttempts: nat)
    requires maxAttempts >= 1
    ensures Inv(Run(steps, maxAttempts), maxAttempts)
  {
    if steps != [] {
      RunKeeps(Front(steps), maxAttempts);
      StepKeeps(Run(Front(steps), maxAttempts), Last(steps), maxAttempts);
    }
  }

  /** Under every sequence of steps, a waiting or running post has attempts to spare, and its claims
      since it was last queued are at most the attempts it may make plus its stale resets. */
  lemma WorkPerQueueing(steps: seq<Step>, maxAttempts: nat, uid: string)
    requires maxAttempts >= 1 && uid in Run(steps, maxAttempts).posts
    ensures var p, t := Run(steps, maxAttempts).posts[uid], TallyOf(Run(steps, maxAttempts), uid);
      && (Open(p.status) ==> p.attempts < maxAttempts)
      && t.claims <= maxAttempts + t.resets
  {
    RunKeeps(steps, maxAttempts);
  }

  lemma {:induction false} AllowanceIsProduct(steps: seq<Step>, maxAttempts: nat, uid: string)
    ensures var t := TallyOf(Run(steps, maxAttempts), uid); t.allowance == maxAttempts * t.queueings
  {
    if steps != [] {
      AllowanceIsProduct(Front(steps), maxAttempts, uid);
      var t := TallyOf(Run(Front(steps), maxAttempts), uid);
      assert maxAttempts * (t.queueings + 1) == maxAttempts * t.queueings + maxAttempts;
    }
  }

  /** Over a post's whole life the model is called for it at most `maxAttempts` times per queueing,
      plus once per stale reset. */
  lemma WorkPerLife(steps: seq<Step>, maxAttempts: nat, uid: string)
    requires maxAttempts >= 1 && uid in Run(steps, maxAttempts).posts
    ensures var t := TallyOf(Run(steps, maxAttempts), uid); t.allClaims <= maxAttempts * t.queueings + t.allResets
  {
    RunKeeps(steps, maxAttempts);
    AllowanceIsProduct(steps, maxAttempts, uid);
  }

  /** `n` claims of a post in a row, each ending in a transient failure. */
  function Retried(m: Machine, uid: string, why: string, wall: Time, n: nat, maxAttempts: nat): Machine {
    if n == 0 then m
    else Next(Next(Retried(m, uid, why, wall, n - 1, maxAttempts), Claim(uid, wall), maxAttempts),
              Finish(FailTransient(why), wall), maxAttempts)
  }

  /** A freshly queued post is retried exactly up to the limit: still waiting after fewer transient
      failures, failed for good with the limit's, with every one of those claims made. */
  lemma {:induction false} RetriesEndAtTheLimit(
    m: Machine, uid: string, why: string, wall: Time, n: nat, maxAttempts: nat)
    requires 1 <= maxAttempts && n <= maxAttempts
    requires m.busy.None? && uid in m.posts && m.posts[uid].status == Pending && m.posts[uid].attempts == 0
    ensures var m' := Retried(m, uid, why, wall, n, maxAttempts);
      && m'.busy.None? && uid in m'.posts && m'.posts[uid].attempts == n
      && m'.posts[uid].status == (if n == maxAttempts then Failed else Pending)
      && TallyOf(m', uid).claims == TallyOf(m, uid).claims + n
  {
    if n > 0 {
      RetriesEndAtTheLimit(m, uid, why, wall, n - 1, maxAttempts);
      OneRetry(Retried(m, uid, why, wall, n - 1, maxAttempts), uid, why, wall, maxAttempts);
    }
  }

  lemma OneRetry(m: Machine, uid: string, why: string, wall: Time, maxAttempts: nat)
    requires m.busy.None? && uid in m.posts && m.posts[uid].status == Pending && m.posts[uid].attempts < maxAttempts
    ensures var m' := Next(Next(m, Claim(uid, wall), maxAttempts), Finish(FailTransient(why), wall), maxAttempts);
      && m'.busy.None? && uid in m'.posts && m'.posts[uid].attempts == m.posts[uid].attempts + 1
      && m'.posts[uid].status == (if m.posts[uid].attempts + 1 == maxAttempts then Failed else Pending)
      && TallyOf(m', uid).claims == TallyOf(m, uid).claims + 1
  {
  }

  /** A closed post is never worked again until its gathered content changes. */
  lemma ClosedStaysClosed(m: Machine, step: Step, uid: string, maxAttempts: nat)
    requires Inv(m, maxAttempts) && uid in m.posts && !Open(m.posts[uid].status)
    ensures var m' := Next(m, step, maxAttempts);
      && uid in m'.posts
      && (Open(m'.posts[uid].status) <==> step.Enqueue? && Enqueues(m.posts, step.g) && step.g.uid.value == uid)
      && TallyOf(m', uid).allClaims == TallyOf(m, uid).allClaims
  {
  }

  /** What the code does not promise: content queued while the model is busy with the old content.
      The finishing step does not check that the post is still in progress, so the new content stays
      queued exactly when the call failed transiently, with an attempt to spare, or raised. */
  lemma ChangeDuringCallStaysQueued(
    m: Machine, source: string, g: Gathered, ending: Ending, wall: Time, maxAttempts: nat)
    requires m.busy.Some? && m.busy.value in m.posts && g.uid == m.busy && Enqueues(m.posts, g)
    ensures var queued := Next(m, Enqueue(source, g, wall), maxAttempts);
      var p := Next(queued, Finish(ending, wall), maxAttempts).posts[m.busy.value];
      && p.caption == g.description.GetOr("") && p.images == g.images
      && (Open(p.status) <==> ending.Raise? || (ending.FailTransient? && maxAttempts > 1))
      && (ending.Decide? ==> p.transcription == Some(ending.transcription) && p.decision == Some(ending.json))
  {
    if ending.Decide? { DecisionsAreFinal(ending.d); }
  }

  /** Left alone, `process_one` is a claim and its finishing step; an error escaping it leaves the
      post in progress, as a crash does. */
  lemma ProcessOneIsTwoSteps(m: Machine, uid: string, ending: Ending, maxAttempts: nat, wall: Time)
    requires m.busy.None?
    ensures Next(Next(m, Claim(uid, wall), maxAttempts), Finish(ending, wall), maxAttempts).posts
         == ProcessOneSpec(m.posts, uid, ending, maxAttempts, wall)
    ensures Next(Next(m, Claim(uid, wall), maxAttempts), Crash, maxAttempts).posts
         == ProcessOneSpec(m.posts, uid, Raise, maxAttempts, wall)
  {
    if uid in m.posts && m.posts[uid].status == Pending {
      var p := Claimed(m.posts[uid], wall);
      assert m.posts[uid := p][uid := AfterEnding(p, ending, maxAttempts, wall)]
          == m.posts[uid := AfterEnding(p, ending, maxAttempts, wall)];
    }
  }
}
