/** The queue of posts awaiting the language model (app/services/pending.py, llm.py, llm_worker.py). */
module PostQueue {
  import opened Wrappers
  import opened Text

  type Time = int

  datatype Status = Pending | Processing | Created | Modified | Deleted | Proposed | Ignored | Failed

  datatype Post = Post(
    source: string, url: Option<string>, caption: string, images: seq<string>, publishedAt: Option<Time>,
    status: Status, attempts: nat, transcription: Option<string>, decision: Option<string>,
    error: Option<string>, createdAt: Time, updatedAt: Time)

  type Posts = map<string, Post>

  /** One gathered post, its images already hosted. */
  datatype Gathered = Gathered(
    uid: Option<string>, url: Option<string>, description: Option<string>, images: seq<string>, startAt: Option<Time>)

  predicate Open(s: Status) { s == Pending || s == Processing }

  // ---- enqueue ---------------------------------------------------------

  predicate HasUid(g: Gathered) { g.uid.Some? && g.uid.value != "" }

  /** The gathered content differs from what is queued. */
  predicate Differs(p: Post, g: Gathered) {
    p.caption != g.description.GetOr("") || p.images != g.images
  }

  predicate Enqueues(posts: Posts, g: Gathered) {
    HasUid(g) && (g.uid.value !in posts || Differs(posts[g.uid.value], g))
  }

  function EnqueueOne(posts: Posts, source: string, g: Gathered, wall: Time): Posts {
    if !HasUid(g) then posts
    else
      var uid, caption := g.uid.value, g.description.GetOr("");
      if uid !in posts then
        posts[uid := Post(source, g.url, caption, g.images, g.startAt, Pending, 0, None, None, None, wall, wall)]
      else if Differs(posts[uid], g) then
        posts[uid := posts[uid].(
          caption := caption, images := g.images, url := g.url, publishedAt := g.startAt, status := Pending,
          transcription := None, decision := None, error := None, attempts := 0, updatedAt := wall)]
      else if posts[uid].publishedAt.None? && g.startAt.Some? then
        posts[uid := posts[uid].(publishedAt := g.startAt)]
      else posts
  }

  function EnqueueAll(posts: Posts, source: string, batch: seq<Gathered>, wall: Time): Posts {
    if batch == [] then posts else EnqueueOne(EnqueueAll(posts, source, Front(batch), wall), source, Last(batch), wall)
  }

  /** What gathering one post leaves.  Without a uid, nothing; any other post stays; a new one waits with what
      was gathered; one gathered with another caption or other images waits again, as if new but for
      its source and its age; and one gathered as it is queued only gains a publishing time it lacked. */
  lemma EnqueuedExactly(posts: Posts, source: string, g: Gathered, wall: Time, other: string)
    ensures var posts', caption := EnqueueOne(posts, source, g, wall), g.description.GetOr("");
      && (other in posts && g.uid != Some(other) ==> other in posts' && posts'[other] == posts[other])
      && (other !in posts && g.uid != Some(other) ==> other !in posts')
      && (g.uid.None? || g.uid.value == "" ==> posts' == posts)
      && (g.uid.Some? && g.uid.value != "" ==>
            var uid := g.uid.value;
            && uid in posts'
            && posts'[uid]
               == if uid !in posts then
                    Post(source, g.url, caption, g.images, g.startAt, Pending, 0, None, None, None, wall, wall)
                  else if posts[uid].caption != caption || posts[uid].images != g.images then
                    Post(posts[uid].source, g.url, caption, g.images, g.startAt, Pending, 0, None, None, None,
                         posts[uid].createdAt, wall)
                  else if posts[uid].publishedAt.None? then posts[uid].(publishedAt := g.startAt)
                  else posts[uid])
  {
  }

  // ---- the worker's transactions ----------------------------------------

  function Claimed(p: Post, wall: Time): Post { p.(status := Processing, error := None, updatedAt := wall) }

  function TransientlyFailed(p: Post, why: string, maxAttempts: nat, wall: Time): Post {
    if p.attempts + 1 >= maxAttempts
    then p.(attempts := p.attempts + 1, status := Failed, error := Some(why), updatedAt := wall)
    else p.(attempts := p.attempts + 1, status := Pending, updatedAt := wall)
  }

  function PermanentlyFailed(p: Post, why: string, wall: Time): Post {
    p.(status := Failed, error := Some(why), updatedAt := wall)
  }

  datatype Kind = KCreate | KModify | KDelete | KIgnore | KAddRecurrence | KRemoveRecurrence

  /** A model decision, with what the apply step looks up to carry it out: whether the matched event
      exists and has a rule; whether a recurrence id is given, whether it reads as an instant, and
      whether that instant passes for one of the match's own; and whether a proposed series has a
      title, a rule and a start that parse. */
  datatype Decision = Decision(
    kind: Kind, hasEvent: bool, matchFound: bool, matchRecurs: bool, occurrenceNamed: bool, occurrenceParses: bool,
    occurrenceBelongs: bool, seriesTitled: bool, seriesRuled: bool, seriesParses: bool)

  /** What carrying a decision out does to the calendar. */
  datatype Effect =
    | Nothing | Refused | ProposeSeries
    | ArchiveMatch | RewriteMatch          // the whole matched event, or the whole series
    | ExcludeOccurrence | OverrideOccurrence
    | AddEvent

  /** `_parse_dt` yields an instant: text that does not parse reads as no occurrence at all. */
  predicate ReadsOccurrence(d: Decision) { d.occurrenceNamed && d.occurrenceParses }

  /** `apply_decision`. */
  function EffectOf(d: Decision): Effect {
    match d.kind
    case KIgnore => Nothing
    case KAddRecurrence => if d.seriesTitled && d.seriesRuled && d.seriesParses then ProposeSeries else Refused
    case KRemoveRecurrence => if d.seriesTitled then ProposeSeries else Refused
    case KDelete =>
      if !d.matchFound then Refused
      else if ReadsOccurrence(d) then (if d.occurrenceBelongs then ExcludeOccurrence else Refused)
      else ArchiveMatch
    case _ =>
      if !d.hasEvent then Refused
      else if d.matchFound && ReadsOccurrence(d) then (if d.occurrenceBelongs then OverrideOccurrence else Refused)
      else if d.kind == KModify && d.matchFound then (if d.matchRecurs then Refused else RewriteMatch)
      else AddEvent
  }

  /** The status a decision leaves the post in. */
  function DecidedStatus(d: Decision): Status {
    match EffectOf(d)
    case Nothing => Ignored
    case Refused => Failed
    case ProposeSeries => Proposed
    case ArchiveMatch => Deleted
    case ExcludeOccurrence => Deleted
    case RewriteMatch => Modified
    case OverrideOccurrence => Modified
    case AddEvent => Created
  }

  function Applied(p: Post, d: Decision, transcription: string, json: string, why: string, wall: Time): Post {
    var status := DecidedStatus(d);
    p.(transcription := Some(transcription), decision := Some(json), attempts := 0, status := status,
       error := if status == Failed then Some(why) else p.error, updatedAt := wall)
  }

  /** Every decision closes the post; nothing is modified or deleted without a match, a series is
      only ever proposed, never created, and an occurrence that reads as an instant must be one of the
      match's own. */
  lemma DecisionsAreFinal(d: Decision)
    ensures !Open(DecidedStatus(d))
    ensures DecidedStatus(d) == Modified ==> d.hasEvent && d.matchFound
    ensures DecidedStatus(d) == Modified && d.kind == KModify && d.matchRecurs ==> ReadsOccurrence(d)
    ensures DecidedStatus(d) == Created ==> d.hasEvent && !(d.kind == KModify && d.matchFound)
    ensures DecidedStatus(d) == Deleted ==> d.kind == KDelete && d.matchFound
    ensures DecidedStatus(d) in {Modified, Deleted} && ReadsOccurrence(d) ==> d.occurrenceBelongs
    ensures DecidedStatus(d) == Proposed ==> d.seriesTitled && (d.kind == KAddRecurrence || d.kind == KRemoveRecurrence)
    ensures DecidedStatus(d) == Ignored <==> d.kind == KIgnore
  {
  }

  /** A recurrence id is given and reads as an instant. */
  predicate AsksOccurrence(d: Decision) { d.occurrenceNamed && d.occurrenceParses }

  /** There is an event, and neither a match to modify nor an occurrence of a match to override. */
  predicate ShouldCreate(d: Decision) {
    && (d.kind == KCreate || d.kind == KModify) && d.hasEvent
    && (!d.matchFound || (d.kind == KCreate && !AsksOccurrence(d)))
  }

  /** There is an event and a match: the occurrence asked for is the match's, or the match has no rule. */
  predicate ShouldModify(d: Decision) {
    && (d.kind == KCreate || d.kind == KModify) && d.hasEvent && d.matchFound
    && (if AsksOccurrence(d) then d.occurrenceBelongs else d.kind == KModify && !d.matchRecurs)
  }

  /** There is a match, and an occurrence asked for is the match's. */
  predicate ShouldDelete(d: Decision) {
    d.kind == KDelete && d.matchFound && (AsksOccurrence(d) ==> d.occurrenceBelongs)
  }

  /** A series to remove has a title; one to add also a rule and a start that parse. */
  predicate ShouldPropose(d: Decision) {
    || (d.kind == KAddRecurrence && d.seriesTitled && d.seriesRuled && d.seriesParses)
    || (d.kind == KRemoveRecurrence && d.seriesTitled)
  }

  /** The status and the effect of every decision, from its own fields. */
  lemma DecidedExactly(d: Decision)
    ensures DecidedStatus(d) == Created <==> ShouldCreate(d)
    ensures DecidedStatus(d) == Modified <==> ShouldModify(d)
    ensures DecidedStatus(d) == Deleted <==> ShouldDelete(d)
    ensures DecidedStatus(d) == Proposed <==> ShouldPropose(d)
    ensures DecidedStatus(d) == Ignored <==> d.kind == KIgnore
    ensures DecidedStatus(d) == Failed
       <==> d.kind != KIgnore && !ShouldCreate(d) && !ShouldModify(d) && !ShouldDelete(d) && !ShouldPropose(d)
    ensures EffectOf(d) == AddEvent <==> ShouldCreate(d)
    ensures EffectOf(d) == ArchiveMatch <==> ShouldDelete(d) && !AsksOccurrence(d)
    ensures EffectOf(d) == ExcludeOccurrence <==> ShouldDelete(d) && AsksOccurrence(d)
    ensures EffectOf(d) == RewriteMatch <==> ShouldModify(d) && !AsksOccurrence(d)
    ensures EffectOf(d) == OverrideOccurrence <==> ShouldModify(d) && AsksOccurrence(d)
    ensures EffectOf(d) == ProposeSeries <==> ShouldPropose(d)
  {
  }

  /** A decision that names an occurrence stays with that occurrence unless its text does not parse;
      then a deletion archives the whole match and a change rewrites a match without a rule. */
  lemma NamedOccurrenceWidensExactly(d: Decision)
    requires d.occurrenceNamed
    ensures EffectOf(d) in {ArchiveMatch, RewriteMatch}
       <==> && !d.occurrenceParses && d.matchFound
            && (d.kind == KDelete || (d.kind == KModify && d.hasEvent && !d.matchRecurs))
    ensures EffectOf(d) in {ExcludeOccurrence, OverrideOccurrence}
       <==> && d.occurrenceParses && d.occurrenceBelongs && d.matchFound
            && (d.kind == KDelete || ((d.kind == KCreate || d.kind == KModify) && d.hasEvent))
  {
  }

  /** For instance: delete the occurrence "next Monday" of a series.  The series goes, as deleted. */
  lemma UnreadOccurrenceDropsSeries(d: Decision)
    requires d.kind == KDelete && d.matchFound && d.matchRecurs && d.occurrenceNamed && !d.occurrenceParses
    ensures EffectOf(d) == ArchiveMatch && DecidedStatus(d) == Deleted
  {
  }

  predicate StaleProcessing(p: Post, cutoff: Time) { p.status == Processing && p.updatedAt < cutoff }

  function ResetStalePosts(posts: Posts, cutoff: Time, wall: Time): Posts {
    map uid | uid in posts ::
      if StaleProcessing(posts[uid], cutoff) then posts[uid].(status := Pending, updatedAt := wall) else posts[uid]
  }

  /** A reset sends back exactly what has been in progress since before the cutoff, and moves nothing else. */
  lemma ResetExactly(posts: Posts, cutoff: Time, wall: Time, uid: string)
    ensures var posts' := ResetStalePosts(posts, cutoff, wall);
      && posts'.Keys == posts.Keys
      && (uid in posts ==>
            posts'[uid] == if posts[uid].status == Processing && posts[uid].updatedAt < cutoff
                           then posts[uid].(status := Pending, updatedAt := wall) else posts[uid])
  {
  }

  /** How the slow middle of `process_one` ends. */
  datatype Ending =
    | Decide(d: Decision, transcription: string, json: string, why: string)
    | FailTransient(why: string) | FailPermanent(why: string) | Raise

  function AfterEnding(p: Post, ending: Ending, maxAttempts: nat, wall: Time): Post {
    match ending
    case Decide(d, transcription, json, why) => Applied(p, d, transcription, json, why, wall)
    case FailTransient(why) => TransientlyFailed(p, why, maxAttempts, wall)
    case FailPermanent(why) => PermanentlyFailed(p, why, wall)
    case Raise => p
  }

  /** An error escapes `process_one`. */
  predicate Raises(posts: Posts, uid: string, ending: Ending) {
    uid in posts && posts[uid].status == Pending && ending.Raise?
  }

  function ProcessOneSpec(posts: Posts, uid: string, ending: Ending, maxAttempts: nat, wall: Time): Posts {
    if uid !in posts || posts[uid].status != Pending then posts
    else posts[uid := AfterEnding(Claimed(posts[uid], wall), ending, maxAttempts, wall)]
  }

  /** The gathered half of a post, which working it never touches. */
  ghost predicate SameGathered(p: Post, p': Post) {
    && p'.source == p.source && p'.url == p.url && p'.caption == p.caption && p'.images == p.images
    && p'.publishedAt == p.publishedAt && p'.createdAt == p.createdAt
  }

  /** How working a waiting post ends.  A decision closes it in its own status, with the transcription and
      the decision kept, the attempts forgotten and an error only if it failed; a transient failure
      counts one attempt and fails the post with the last one; a permanent one fails it at once; an
      escaped error leaves it in progress.  Any other post, and every other field, stays. */
  lemma WorkedPostEnds(posts: Posts, uid: string, ending: Ending, maxAttempts: nat, wall: Time, other: string)
    requires uid in posts && posts[uid].status == Pending
    ensures var p, posts' := posts[uid], ProcessOneSpec(posts, uid, ending, maxAttempts, wall);
      && posts'.Keys == posts.Keys && (other in posts && other != uid ==> posts'[other] == posts[other])
      && SameGathered(p, posts'[uid]) && posts'[uid].updatedAt == wall
      && match ending
         case Decide(d, transcription, json, why) =>
           && posts'[uid].status == DecidedStatus(d) && posts'[uid].attempts == 0
           && posts'[uid].transcription == Some(transcription) && posts'[uid].decision == Some(json)
           && posts'[uid].error == if DecidedStatus(d) == Failed then Some(why) else None
         case FailTransient(why) =>
           && posts'[uid].status == (if p.attempts + 1 < maxAttempts then Pending else Failed)
           && posts'[uid].attempts == p.attempts + 1
           && posts'[uid].error == (if p.attempts + 1 < maxAttempts then None else Some(why))
           && posts'[uid].transcription == p.transcription && posts'[uid].decision == p.decision
         case FailPermanent(why) =>
           && posts'[uid].status == Failed && posts'[uid].attempts == p.attempts && posts'[uid].error == Some(why)
           && posts'[uid].transcription == p.transcription && posts'[uid].decision == p.decision
         case Raise =>
           && posts'[uid].status == Processing && posts'[uid].attempts == p.attempts && posts'[uid].error == None
           && posts'[uid].transcription == p.transcription && posts'[uid].decision == p.decision
  {
  }

  /** So a waiting post that gets a decision is closed, with no attempts left over, in the status the
      decision's own fields call for. */
  lemma DecisionEndsPost(
    posts: Posts, uid: string, d: Decision, transcription: string, json: string, why: string, maxAttempts: nat,
    wall: Time)
    requires uid in posts && posts[uid].status == Pending
    ensures var p := ProcessOneSpec(posts, uid, Decide(d, transcription, json, why), maxAttempts, wall)[uid];
      && p.attempts == 0
      && p.status == (if d.kind == KIgnore then Ignored else if ShouldCreate(d) then Created
                      else if ShouldModify(d) then Modified else if ShouldDelete(d) then Deleted
                      else if ShouldPropose(d) then Proposed else Failed)
  {
    DecidedExactly(d);
  }

  /** The queue as one gathered post after another finds it; a preview never moves. */
  function Standing(posts: Posts, source: string, before: seq<Gathered>, dryRun: bool, wall: Time): Posts {
    if dryRun then posts else EnqueueAll(posts, source, before, wall)
  }

  datatype Found = Absent | Altered | Unaltered

  function FoundIn(posts: Posts, g: Gathered): Found
    requires HasUid(g)
  {
    if g.uid.value !in posts then Absent else if Differs(posts[g.uid.value], g) then Altered else Unaltered
  }

  /** How many gathered posts were found so when their turn came. */
  function FoundCount(posts: Posts, source: string, batch: seq<Gathered>, dryRun: bool, wall: Time, how: Found): nat {
    if batch == [] then 0
    else
      FoundCount(posts, source, Front(batch), dryRun, wall, how)
      + if HasUid(Last(batch)) && FoundIn(Standing(posts, source, Front(batch), dryRun, wall), Last(batch)) == how
        then 1 else 0
  }

  /** Every gathered post with a uid is counted once: as new, as changed, or as the same. */
  lemma {:induction false} FoundAddsUp(posts: Posts, source: string, batch: seq<Gathered>, dryRun: bool, wall: Time)
    ensures FoundCount(posts, source, batch, dryRun, wall, Absent)
              + FoundCount(posts, source, batch, dryRun, wall, Altered)
              + FoundCount(posts, source, batch, dryRun, wall, Unaltered)
         == UidCount(batch)
  {
    if batch != [] { FoundAddsUp(posts, source, Front(batch), dryRun, wall); }
  }

  function UidCount(batch: seq<Gathered>): nat {
    if batch == [] then 0
    else UidCount(Front(batch)) + if Last(batch).uid.Some? && Last(batch).uid.value != "" then 1 else 0
  }

  /** It is the same exactly when it is queued with its caption and images, and new when it is not queued. */
  lemma FoundExactly(posts: Posts, g: Gathered)
    requires HasUid(g)
    ensures FoundIn(posts, g) == Absent <==> g.uid.value !in posts
    ensures FoundIn(posts, g) == Unaltered
       <==> && g.uid.value in posts && posts[g.uid.value].caption == g.description.GetOr("")
            && posts[g.uid.value].images == g.images
  {
  }

  // ---- the queue as it is worked ----------------------------------------

  class Queue {
    var posts: Posts

    constructor ()
      ensures posts == map[]
    {
      posts := map[];
    }

    /** Upsert gathered posts; a preview only counts. */
    method Enqueue(source: string, batch: seq<Gathered>, dryRun: bool, wall: Time)
      returns (inserted: nat, changed: nat, same: nat)
      modifies this
      ensures posts == Standing(old(posts), source, batch, dryRun, wall)
      ensures inserted == FoundCount(old(posts), source, batch, dryRun, wall, Absent)
      ensures changed == FoundCount(old(posts), source, batch, dryRun, wall, Altered)
      ensures same == FoundCount(old(posts), source, batch, dryRun, wall, Unaltered)
      ensures !dryRun ==> |posts| == |old(posts)| + inserted
    {
      inserted, changed, same := 0, 0, 0;
      var i := 0;
      while i < |batch|
        invariant 0 <= i <= |batch|
        invariant posts == Standing(old(posts), source, batch[..i], dryRun, wall)
        invariant inserted == FoundCount(old(posts), source, batch[..i], dryRun, wall, Absent)
        invariant changed == FoundCount(old(posts), source, batch[..i], dryRun, wall, Altered)
        invariant same == FoundCount(old(posts), source, batch[..i], dryRun, wall, Unaltered)
        invariant !dryRun ==> |posts| == |old(posts)| + inserted
      {
        assert Front(batch[..i + 1]) == batch[..i];
        var g := batch[i];
        i := i + 1;
        if !HasUid(g) {
          continue;
        }
        if g.uid.value !in posts {
          inserted := inserted + 1;
        } else if Differs(posts[g.uid.value], g) {
          changed := changed + 1;
        } else {
          same := same + 1;
        }
        if !dryRun {
          posts := EnqueueOne(posts, source, g, wall);
        }
      }
      assert batch[..i] == batch;
    }

    method ResetStale(cutoff: Time, wall: Time) returns (n: nat)
      modifies this
      ensures posts == ResetStalePosts(old(posts), cutoff, wall)
      ensures n == |set uid | uid in old(posts) && StaleProcessing(old(posts)[uid], cutoff)|
    {
      var stale := set uid | uid in posts && StaleProcessing(posts[uid], cutoff);
      n := |stale|;
      var todo := stale;
      while todo != {}
        invariant todo <= stale && posts.Keys == old(posts).Keys
        invariant forall uid :: uid in posts ==>
          posts[uid] == if uid in stale - todo then old(posts)[uid].(status := Pending, updatedAt := wall)
                        else old(posts)[uid]
        decreases todo
      {
        var uid :| uid in todo;
        todo := todo - {uid};
        posts := posts[uid := posts[uid].(status := Pending, updatedAt := wall)];
      }
      ghost var target := ResetStalePosts(old(posts), cutoff, wall);
      assert posts.Keys == target.Keys;
      assert forall uid | uid in posts :: posts[uid] == target[uid];
    }

    /** Claim, the model's answer, and its aftermath, each its own transaction. */
    method ProcessOne(uid: string, ending: Ending, maxAttempts: nat, wall: Time) returns (returned: bool)
      modifies this
      ensures posts == ProcessOneSpec(old(posts), uid, ending, maxAttempts, wall)
      ensures returned == !Raises(old(posts), uid, ending)
    {
      if uid !in posts || posts[uid].status != Pending {
        return true;
      }
      posts := posts[uid := posts[uid].(status := Processing, error := None, updatedAt := wall)];
      match ending {
        case FailTransient(why) =>
          var p := posts[uid].(attempts := posts[uid].attempts + 1);
          if p.attempts >= maxAttempts {
            p := p.(status := Failed, error := Some(why));
          } else {
            p := p.(status := Pending);
          }
          posts := posts[uid := p.(updatedAt := wall)];
        case FailPermanent(why) =>
          posts := posts[uid := posts[uid].(status := Failed, error := Some(why), updatedAt := wall)];
        case Decide(d, transcription, json, why) =>
          var p := posts[uid].(transcription := Some(transcription), decision := Some(json), attempts := 0);
          p := p.(status := DecidedStatus(d));
          if p.status == Failed {
            p := p.(error := Some(why));
          }
          posts := posts[uid := p.(updatedAt := wall)];
        case Raise =>
          return false;
      }
      return true;
    }

    /** The post waiting longest. */
    method Oldest(among: set<string>) returns (uid: string)
      requires among != {} && among <= posts.Keys
      ensures uid in among && forall u | u in among :: NoLater(posts, uid, u)
    {
      var todo := among;
      uid :| uid in todo;
      todo := todo - {uid};
      while todo != {}
        invariant todo <= among && uid in among
        invariant forall u | u in among - todo :: NoLater(posts, uid, u)
        decreases todo
      {
        var u :| u in todo;
        todo := todo - {u};
        if posts[u].createdAt < posts[uid].createdAt {
          assert forall v | v in among - todo :: v == u || NoLater(posts, uid, v);
          uid := u;
        }
      }
    }

    /** The oldest waiting posts, oldest first, up to the limit. */
    method PickWaiting(limit: nat) returns (picked: seq<string>)
      ensures IsPick(posts, picked, limit)
    {
      var rest := Waiting(posts);
      picked := [];
      while |picked| < limit && rest != {}
        invariant PickedFrom(posts, picked, rest) && |picked| <= limit
        decreases rest
      {
        var uid := Oldest(rest);
        rest, picked := rest - {uid}, picked + [uid];
      }
    }

    /** One tick: reset what is stuck, pick, then work the picked posts one at a time. */
    method RunOnce(cutoff: Time, limit: nat, endings: string -> Ending, maxAttempts: nat, wall: Time)
      returns (processed: nat, picked: seq<string>)
      modifies this
      ensures IsPick(ResetStalePosts(old(posts), cutoff, wall), picked, limit)
      ensures posts == ProcessAll(ResetStalePosts(old(posts), cutoff, wall), picked, endings, maxAttempts, wall)
      ensures processed == Returned(ResetStalePosts(old(posts), cutoff, wall), picked, endings, maxAttempts, wall)
    {
      var _ := ResetStale(cutoff, wall);
      picked := PickWaiting(limit);
      ghost var start := posts;
      processed := 0;
      var i := 0;
      while i < |picked|
        invariant 0 <= i <= |picked|
        invariant processed == Returned(start, picked[..i], endings, maxAttempts, wall)
        invariant posts == ProcessAll(start, picked[..i], endings, maxAttempts, wall)
      {
        assert Front(picked[..i + 1]) == picked[..i];
        var returned := ProcessOne(picked[i], endings(picked[i]), maxAttempts, wall);
        if returned {
          processed := processed + 1;
        }
        i := i + 1;
      }
      assert picked[..i] == picked;
    }
  }

  function Waiting(posts: Posts): set<string> {
    set uid | uid in posts && posts[uid].status == Pending
  }

  predicate NoLater(posts: Posts, u: string, v: string) {
    u in posts && v in posts && posts[u].createdAt <= posts[v].createdAt
  }

  /** `picked` and `rest` share out the waiting posts; `picked` is in order and no later than `rest`. */
  ghost predicate PickedFrom(posts: Posts, picked: seq<string>, rest: set<string>) {
    && rest <= Waiting(posts)
    && (forall uid :: uid in picked <==> uid in Waiting(posts) && uid !in rest)
    && (forall i, j | 0 <= i < j < |picked| :: picked[i] != picked[j])
    && (forall i, j | 0 <= i < j < |picked| :: NoLater(posts, picked[i], picked[j]))
    && (forall i, uid | 0 <= i < |picked| && uid in rest :: NoLater(posts, picked[i], uid))
  }

  /** What the ordered, limited query may return. */
  ghost predicate IsPick(posts: Posts, picked: seq<string>, limit: nat) {
    |picked| <= limit && exists rest :: PickedFrom(posts, picked, rest) && (|picked| < limit ==> rest == {})
  }

  /** What is picked waits, is picked once, oldest first; what waits and is not picked is no older, and there
      is none of it unless the limit is reached. */
  lemma PickMeaning(posts: Posts, picked: seq<string>, limit: nat)
    requires IsPick(posts, picked, limit)
    ensures |picked| <= limit
    ensures forall i | 0 <= i < |picked| :: picked[i] in posts && posts[picked[i]].status == Pending
    ensures forall i, j | 0 <= i < j < |picked| ::
              picked[i] != picked[j] && posts[picked[i]].createdAt <= posts[picked[j]].createdAt
    ensures forall uid | uid in posts && posts[uid].status == Pending && uid !in picked ::
              |picked| == limit && forall i | 0 <= i < |picked| :: posts[picked[i]].createdAt <= posts[uid].createdAt
  {
    var rest :| PickedFrom(posts, picked, rest) && (|picked| < limit ==> rest == {});
    forall i | 0 <= i < |picked| ensures picked[i] in Waiting(posts) {
      assert picked[i] in picked;
    }
    forall i, j | 0 <= i < j < |picked|
      ensures picked[i] != picked[j] && posts[picked[i]].createdAt <= posts[picked[j]].createdAt
    {
      assert NoLater(posts, picked[i], picked[j]);
    }
    forall uid | uid in posts && posts[uid].status == Pending && uid !in picked
      ensures |picked| == limit && forall i | 0 <= i < |picked| :: posts[picked[i]].createdAt <= posts[uid].createdAt
    {
      assert uid in rest;
      assert forall i | 0 <= i < |picked| :: NoLater(posts, picked[i], uid);
    }
  }

  function ProcessAll(
    posts: Posts, picked: seq<string>, endings: string -> Ending, maxAttempts: nat, wall: Time): Posts {
    if picked == [] then posts
    else
      var before := ProcessAll(posts, Front(picked), endings, maxAttempts, wall);
      ProcessOneSpec(before, Last(picked), endings(Last(picked)), maxAttempts, wall)
  }

  /** How many of the picked posts were worked without an error escaping. */
  function Returned(posts: Posts, picked: seq<string>, endings: string -> Ending, maxAttempts: nat, wall: Time): nat {
    if picked == [] then 0
    else
      Returned(posts, Front(picked), endings, maxAttempts, wall)
      + if Raises(ProcessAll(posts, Front(picked), endings, maxAttempts, wall), Last(picked), endings(Last(picked)))
        then 0 else 1
  }

  /** A tick works each picked pending post exactly once and touches no other post. */
  lemma {:induction false} TickIsPointwise(
    posts: Posts, picked: seq<string>, endings: string -> Ending, maxAttempts: nat, wall: Time, uid: string)
    requires forall i, j :: 0 <= i < j < |picked| ==> picked[i] != picked[j]
    requires uid in posts
    ensures var after := ProcessAll(posts, picked, endings, maxAttempts, wall);
      && uid in after
      && after[uid] == if uid in picked && posts[uid].status == Pending
                       then AfterEnding(Claimed(posts[uid], wall), endings(uid), maxAttempts, wall) else posts[uid]
  {
    if picked != [] {
      assert picked == Front(picked) + [Last(picked)];
      TickIsPointwise(posts, Front(picked), endings, maxAttempts, wall, uid);
    }
  }

  // ---- queueing the same posts again -------------------------------------

  ghost predicate DistinctUids(batch: seq<Gathered>) {
    forall i, j :: 0 <= i < j < |batch| && HasUid(batch[i]) && HasUid(batch[j]) ==> batch[i].uid != batch[j].uid
  }

  /** The gathered post is queued as it is. */
  ghost predicate Queued(posts: Posts, g: Gathered) {
    HasUid(g) ==> g.uid.value in posts && !Differs(posts[g.uid.value], g)
                  && (g.startAt.Some? ==> posts[g.uid.value].publishedAt.Some?)
  }

  lemma {:induction false} EnqueueQueues(posts: Posts, source: string, batch: seq<Gathered>, wall: Time)
    requires DistinctUids(batch)
    ensures forall g :: g in batch ==> Queued(EnqueueAll(posts, source, batch, wall), g)
  {
    if batch != [] {
      var before, after := EnqueueAll(posts, source, Front(batch), wall), EnqueueAll(posts, source, batch, wall);
      EnqueueQueues(posts, source, Front(batch), wall);
      forall g | g in batch ensures Queued(after, g) {
        var k :| 0 <= k < |batch| && batch[k] == g;
        if k < |batch| - 1 {
          assert g == Front(batch)[k] && Queued(before, g);
          assert HasUid(g) && HasUid(Last(batch)) ==> g.uid != Last(batch).uid;
        }
      }
    }
  }

  lemma {:induction false} QueuedIsFixed(posts: Posts, source: string, batch: seq<Gathered>, wall: Time)
    requires forall g :: g in batch ==> Queued(posts, g)
    ensures EnqueueAll(posts, source, batch, wall) == posts
  {
    if batch != [] {
      assert batch == Front(batch) + [Last(batch)];
      assert Queued(posts, Last(batch));
      QueuedIsFixed(posts, source, Front(batch), wall);
    }
  }

  /** Gathering the same posts again re-queues none of them, whatever became of them. */
  lemma EnqueueIdempotent(posts: Posts, source: string, batch: seq<Gathered>, wall: Time, later: Time)
    requires DistinctUids(batch)
    ensures var once := EnqueueAll(posts, source, batch, wall); EnqueueAll(once, source, batch, later) == once
  {
    EnqueueQueues(posts, source, batch, wall);
    QueuedIsFixed(EnqueueAll(posts, source, batch, wall), source, batch, later);
  }
}
