/** The retention job: anonymizing rows in place once they pass their window
    (backend/app/db/retention.py). */
module Retention {
  import opened Wrappers

  /** Company fields, then the submitter's own, then network metadata.  Times are in ticks. */
  datatype Submission = Submission(
    id: string, companyName: string, domain: string, country: string, submittedAt: int,
    workEmail: string, pii: Pii,
    sourceIp: Option<string>, userAgent: Option<string>, forwardedHeaders: Option<string>)

  datatype Pii = Pii(
    taxId: Option<string>, billingAddress: Option<string>, phone: Option<string>,
    requester: Option<string>, linkedin: Option<string>, declaredPeople: Option<seq<string>>)

  datatype Run = Run(id: string, submissionId: string)
  datatype Review = Review(runId: string, decidedAt: Option<int>)
  datatype Evidence = Evidence(id: string, runId: string, field: string, payload: Option<map<string, string>>)

  const ANONYMIZED_EMAIL := "redacted@anonymized.invalid"
  const ASSOCIATION_FIELD := "linkedin_presence"
  const ASSOCIATION_KEY := "associated_people"
  const NO_PII := Pii(None, None, None, None, None, None)

  /** An address: its version, and its bits as a number. */
  datatype Address = V4(bits: nat) | V6(bits: nat)

  /** The address parser and its inverse, the three windows in ticks, and the time of the pass. */
  datatype Policy = Policy(parseIp: string -> Option<Address>, showIp: Address -> string,
                           network: int, reviewed: int, unreviewed: int, now: int)

  // ----- One row

  /** `_truncate_ip`: the /24 or /48 network, or nothing for an unreadable address. */
  function TruncateIp(p: Policy, ip: string): (r: Option<string>)
    ensures r.Some? ==> '/' in r.value
  {
    match p.parseIp(ip)
    case None => None
    case Some(a) => Some(p.showIp(Cleared(a)) + if a.V4? then "/24" else "/48")
  }

  /** The addresses share their leading 24 bits, or their leading 48. */
  predicate SameNetwork(a: Address, b: Address) {
    match (a, b)
    case (V4(x), V4(y)) => x / 0x100 == y / 0x100
    case (V6(x), V6(y)) => x / 0x1_0000_0000_0000_0000_0000 == y / 0x1_0000_0000_0000_0000_0000
    case _ => false
  }

  /** What is kept of an address is its network and nothing else: two texts become one exactly when
      both are unreadable or their addresses are of one network. */
  lemma TruncationKeepsNetwork(p: Policy, a: string, b: string)
    requires forall x: Address, y: Address :: p.showIp(x) == p.showIp(y) ==> x == y
    ensures TruncateIp(p, a) == TruncateIp(p, b) <==>
            match (p.parseIp(a), p.parseIp(b))
            case (None, None) => true
            case (Some(x), Some(y)) => SameNetwork(x, y)
            case _ => false
  {
    var x, y := p.parseIp(a), p.parseIp(b);
    if x.Some? && y.Some? {
      var s, t := TruncateIp(p, a).value, TruncateIp(p, b).value;
      assert s[|s| - 1] == (if x.value.V4? then '4' else '8') && t[|t| - 1] == (if y.value.V4? then '4' else '8');
      assert s[..|s| - 3] == p.showIp(Cleared(x.value)) && t[..|t| - 3] == p.showIp(Cleared(y.value));
      SameCleared(x.value, y.value);
    }
  }

  /** The address with its host part cleared. */
  function Cleared(a: Address): Address {
    match a
    case V4(bits) => V4(bits - bits % 0x100)
    case V6(bits) => V6(bits - bits % 0x1_0000_0000_0000_0000_0000)
  }

  lemma SameCleared(a: Address, b: Address)
    ensures Cleared(a) == Cleared(b) <==> SameNetwork(a, b)
  {
  }

  predicate NetworkDone(s: Submission) {
    s.userAgent.None? && s.forwardedHeaders.None? && (s.sourceIp.Some? ==> '/' in s.sourceIp.value)
  }

  predicate NetworkDue(p: Policy, s: Submission) {
    s.submittedAt <= p.now - p.network && !NetworkDone(s)
  }

  function ScrubNetwork(p: Policy, s: Submission): Submission {
    s.(sourceIp := if s.sourceIp.Some? then TruncateIp(p, s.sourceIp.value) else None,
       userAgent := None, forwardedHeaders := None)
  }

  function NetworkStep(p: Policy, s: Submission): Submission {
    if NetworkDue(p, s) then ScrubNetwork(p, s) else s
  }

  predicate ReviewOf(runs: seq<Run>, r: Review, submissionId: string) {
    r.decidedAt.Some? && exists i :: 0 <= i < |runs| && runs[i].id == r.runId && runs[i].submissionId == submissionId
  }

  /** `_latest_review_decision`: the latest decision over all runs of the submission. */
  function LatestDecision(runs: seq<Run>, reviews: seq<Review>, submissionId: string): (latest: Option<int>)
    ensures latest.None? ==> forall i :: 0 <= i < |reviews| ==> !ReviewOf(runs, reviews[i], submissionId)
    ensures latest.Some? ==> exists i :: 0 <= i < |reviews| && ReviewOf(runs, reviews[i], submissionId) && reviews[i].decidedAt == latest
    ensures latest.Some? ==> forall i :: 0 <= i < |reviews| && ReviewOf(runs, reviews[i], submissionId)
                               ==> reviews[i].decidedAt.value <= latest.value
  {
    if reviews == [] then None
    else
      var n := |reviews| - 1;
      var before := LatestDecision(runs, reviews[..n], submissionId);
      if ReviewOf(runs, reviews[n], submissionId) && (before.None? || before.value < reviews[n].decidedAt.value)
      then reviews[n].decidedAt else before
  }

  /** The decision is of a run of this submission, and none of its runs has a later one. */
  lemma LatestIsOfSubmission(runs: seq<Run>, reviews: seq<Review>, submissionId: string)
    ensures var latest := LatestDecision(runs, reviews, submissionId);
            && (latest.Some? ==> exists review, run :: review in reviews && run in runs && run.id == review.runId
                                                       && run.submissionId == submissionId && review.decidedAt == latest)
            && (forall review, run ::
                  review in reviews && run in runs && run.id == review.runId && run.submissionId == submissionId && review.decidedAt.Some?
                  ==> latest.Some? && review.decidedAt.value <= latest.value)
  {
    var latest := LatestDecision(runs, reviews, submissionId);
    if latest.Some? {
      var i :| 0 <= i < |reviews| && ReviewOf(runs, reviews[i], submissionId) && reviews[i].decidedAt == latest;
      var j :| 0 <= j < |runs| && runs[j].id == reviews[i].runId && runs[j].submissionId == submissionId;
      assert reviews[i] in reviews && runs[j] in runs;
    }
    forall review, run | review in reviews && run in runs && run.id == review.runId && run.submissionId == submissionId && review.decidedAt.Some?
      ensures latest.Some? && review.decidedAt.value <= latest.value
    {
      var i :| 0 <= i < |reviews| && reviews[i] == review;
      var j :| 0 <= j < |runs| && runs[j] == run;
      assert ReviewOf(runs, reviews[i], submissionId);
    }
  }

  /** The time the window runs from, and how long it is. */
  function WindowEnd(p: Policy, latest: Option<int>, s: Submission): int {
    if latest.Some? then latest.value + p.reviewed else s.submittedAt + p.unreviewed
  }

  predicate PiiDue(p: Policy, latest: Option<int>, s: Submission) {
    s.workEmail != ANONYMIZED_EMAIL && WindowEnd(p, latest, s) <= p.now
  }

  function ScrubPii(s: Submission): Submission {
    s.(pii := NO_PII, workEmail := ANONYMIZED_EMAIL)
  }

  function PiiStep(p: Policy, latest: Option<int>, s: Submission): Submission {
    if PiiDue(p, latest, s) then ScrubPii(s) else s
  }

  predicate Associated(runs: seq<Run>, ids: set<string>, e: Evidence) {
    e.field == ASSOCIATION_FIELD && exists i :: 0 <= i < |runs| && runs[i].id == e.runId && runs[i].submissionId in ids
  }

  predicate NamesPeople(e: Evidence) {
    e.payload.Some? && ASSOCIATION_KEY in e.payload.value
  }

  predicate AssociationDue(runs: seq<Run>, ids: set<string>, e: Evidence) {
    Associated(runs, ids, e) && NamesPeople(e)
  }

  function ScrubAssociation(e: Evidence): Evidence
    requires NamesPeople(e)
  {
    e.(payload := Some(e.payload.value - {ASSOCIATION_KEY}))
  }

  function AssociationStep(runs: seq<Run>, ids: set<string>, e: Evidence): Evidence {
    if AssociationDue(runs, ids, e) then ScrubAssociation(e) else e
  }

  // ----- One pass, as a function of the tables

  datatype Tables = Tables(submissions: seq<Submission>, runs: seq<Run>, reviews: seq<Review>, evidence: seq<Evidence>)

  datatype Counts = Counts(network: nat, reviewed: nat, unreviewed: nat, association: nat)

  function SubmissionStep(p: Policy, runs: seq<Run>, reviews: seq<Review>, s: Submission): Submission {
    PiiStep(p, LatestDecision(runs, reviews, s.id), NetworkStep(p, s))
  }

  function AnonymizedIds(submissions: seq<Submission>): set<string> {
    set i | 0 <= i < |submissions| && submissions[i].workEmail == ANONYMIZED_EMAIL :: submissions[i].id
  }

  function Pass(p: Policy, t: Tables): Tables {
    var submissions := seq(|t.submissions|, i requires 0 <= i < |t.submissions| => SubmissionStep(p, t.runs, t.reviews, t.submissions[i]));
    var ids := AnonymizedIds(submissions);
    t.(submissions := submissions,
       evidence := seq(|t.evidence|, i requires 0 <= i < |t.evidence| => AssociationStep(t.runs, ids, t.evidence[i])))
  }

  function NetworkCount(p: Policy, submissions: seq<Submission>): nat {
    if submissions == [] then 0
    else NetworkCount(p, submissions[..|submissions| - 1]) + if NetworkDue(p, submissions[|submissions| - 1]) then 1 else 0
  }

  /** How many submissions lose their PII, counted for the reviewed or for the others. */
  function PiiCount(p: Policy, runs: seq<Run>, reviews: seq<Review>, submissions: seq<Submission>, reviewed: bool): nat {
    if submissions == [] then 0
    else
      var s := submissions[|submissions| - 1];
      var latest := LatestDecision(runs, reviews, s.id);
      PiiCount(p, runs, reviews, submissions[..|submissions| - 1], reviewed)
      + if PiiDue(p, latest, s) && latest.Some? == reviewed then 1 else 0
  }

  function AssociationCount(runs: seq<Run>, ids: set<string>, evidence: seq<Evidence>): nat {
    if evidence == [] then 0
    else AssociationCount(runs, ids, evidence[..|evidence| - 1]) + if AssociationDue(runs, ids, evidence[|evidence| - 1]) then 1 else 0
  }

  function PassCounts(p: Policy, t: Tables): Counts {
    Counts(NetworkCount(p, t.submissions),
           PiiCount(p, t.runs, t.reviews, t.submissions, true),
           PiiCount(p, t.runs, t.reviews, t.submissions, false),
           AssociationCount(t.runs, AnonymizedIds(Pass(p, t).submissions), t.evidence))
  }

  predicate SomethingDone(c: Counts) {
    c.network != 0 || c.reviewed != 0 || c.unreviewed != 0 || c.association != 0
  }

  // ----- The job

  class Database {
    var submissions: seq<Submission>
    var evidence: seq<Evidence>
    const runs: seq<Run>
    const reviews: seq<Review>
    var audit: seq<Counts>

    constructor (t: Tables)
      ensures Now() == t && audit == []
    {
      submissions, evidence, runs, reviews, audit := t.submissions, t.evidence, t.runs, t.reviews, [];
    }

    function Now(): Tables
      reads this
    {
      Tables(submissions, runs, reviews, evidence)
    }

    /** `_anonymize_network_metadata`. */
    method AnonymizeNetwork(p: Policy) returns (count: nat)
      modifies this`submissions
      ensures |submissions| == |old(submissions)|
      ensures forall k :: 0 <= k < |submissions| ==> submissions[k] == NetworkStep(p, old(submissions)[k])
      ensures count == NetworkCount(p, old(submissions))
    {
      hide TruncateIp;
      count := 0;
      ghost var was := submissions;
      for i := 0 to |submissions|
        invariant |submissions| == |was|
        invariant forall k :: 0 <= k < i ==> submissions[k] == NetworkStep(p, was[k])
        invariant forall k :: i <= k < |was| ==> submissions[k] == was[k]
        invariant count == NetworkCount(p, was[..i])
      {
        assert was[..i + 1][..i] == was[..i];
        var sub := submissions[i];
        if sub.sourceIp.None? && sub.userAgent.None? && sub.forwardedHeaders.None? {
          continue;
        }
        if sub.submittedAt > p.now - p.network {
          continue;
        }
        if NetworkDone(sub) {
          continue;
        }
        if sub.sourceIp.Some? {
          sub := sub.(sourceIp := TruncateIp(p, sub.sourceIp.value));
        }
        sub := sub.(userAgent := None, forwardedHeaders := None);
        submissions := submissions[i := sub];
        count := count + 1;
      }
      assert was[..|was|] == was;
    }

    /** The PII loop of `run_retention`. */
    method AnonymizePii(p: Policy) returns (reviewed: nat, unreviewed: nat)
      modifies this`submissions
      ensures |submissions| == |old(submissions)|
      ensures forall k :: 0 <= k < |submissions|
                ==> submissions[k] == PiiStep(p, LatestDecision(runs, reviews, old(submissions)[k].id), old(submissions)[k])
      ensures reviewed == PiiCount(p, runs, reviews, old(submissions), true)
      ensures unreviewed == PiiCount(p, runs, reviews, old(submissions), false)
    {
      hide LatestDecision, ScrubPii, PiiStep, PiiDue, PiiCount;
      NoneDue(p, runs, reviews);
      reviewed, unreviewed := 0, 0;
      ghost var was := submissions;
      for i := 0 to |submissions|
        invariant |submissions| == |was|
        invariant forall k :: 0 <= k < i ==> submissions[k] == PiiStep(p, LatestDecision(runs, reviews, was[k].id), was[k])
        invariant forall k :: i <= k < |was| ==> submissions[k] == was[k]
        invariant reviewed == PiiCount(p, runs, reviews, was[..i], true)
        invariant unreviewed == PiiCount(p, runs, reviews, was[..i], false)
      {
        var sub := submissions[i];
        var decidedAt := LatestDecision(runs, reviews, sub.id);
        PiiCases(p, decidedAt, sub);
        OneMoreDue(p, runs, reviews, was, i, true);
        OneMoreDue(p, runs, reviews, was, i, false);
        if sub.workEmail == ANONYMIZED_EMAIL {
          continue;
        }
        if decidedAt.Some? {
          if decidedAt.value <= p.now - p.reviewed {
            submissions := submissions[i := ScrubPii(sub)];
            reviewed := reviewed + 1;
          }
        } else if sub.submittedAt <= p.now - p.unreviewed {
          submissions := submissions[i := ScrubPii(sub)];
          unreviewed := unreviewed + 1;
        }
      }
      assert was[..|was|] == was;
    }

    /** `_anonymize_requester_association`. */
    method AnonymizeAssociation(ids: set<string>) returns (count: nat)
      modifies this`evidence
      ensures |evidence| == |old(evidence)|
      ensures forall k :: 0 <= k < |evidence| ==> evidence[k] == AssociationStep(runs, ids, old(evidence)[k])
      ensures count == AssociationCount(runs, ids, old(evidence))
    {
      hide Associated, ScrubAssociation;
      count := 0;
      ghost var was := evidence;
      for i := 0 to |evidence|
        invariant |evidence| == |was|
        invariant forall k :: 0 <= k < i ==> evidence[k] == AssociationStep(runs, ids, was[k])
        invariant forall k :: i <= k < |was| ==> evidence[k] == was[k]
        invariant count == AssociationCount(runs, ids, was[..i])
      {
        assert was[..i + 1][..i] == was[..i];
        if !Associated(runs, ids, evidence[i]) || !NamesPeople(evidence[i]) {
          continue;
        }
        evidence := evidence[i := ScrubAssociation(evidence[i])];
        count := count + 1;
      }
      assert was[..|was|] == was;
    }

    /** `run_retention`: one pass, with an audit event only when something was anonymized. */
    method RunRetention(p: Policy) returns (counts: Counts)
      modifies this
      ensures Now() == Pass(p, old(Now()))
      ensures counts == PassCounts(p, old(Now()))
      ensures audit == if Now() == old(Now()) then old(audit) else old(audit) + [counts]
    {
      hide NetworkStep, PiiStep, LatestDecision, AssociationStep, NetworkCount, PiiCount, AssociationCount;
      ghost var was := Now();
      var network := AnonymizeNetwork(p);
      ghost var between := submissions;
      var reviewed, unreviewed := AnonymizePii(p);
      NetworkKeepsIds(p, was.submissions, between);
      NetworkKeepsPiiCount(p, runs, reviews, was.submissions, between, true);
      NetworkKeepsPiiCount(p, runs, reviews, was.submissions, between, false);
      var ids := AnonymizedIds(submissions);
      assert submissions == Pass(p, was).submissions;
      var association := AnonymizeAssociation(ids);
      assert evidence == Pass(p, was).evidence;
      counts := Counts(network, reviewed, unreviewed, association);
      CountsSeeEveryChange(p, was);
      if SomethingDone(counts) {
        audit := audit + [counts];
      }
    }
  }

  lemma PiiCases(p: Policy, latest: Option<int>, s: Submission)
    ensures PiiDue(p, latest, s)
            <==> s.workEmail != ANONYMIZED_EMAIL
                 && if latest.Some? then latest.value <= p.now - p.reviewed else s.submittedAt <= p.now - p.unreviewed
    ensures PiiStep(p, latest, s) == if PiiDue(p, latest, s) then ScrubPii(s) else s
  {
  }

  lemma NoneDue(p: Policy, runs: seq<Run>, reviews: seq<Review>)
    ensures forall reviewed :: PiiCount(p, runs, reviews, [], reviewed) == 0
  {
  }

  lemma OneMoreDue(p: Policy, runs: seq<Run>, reviews: seq<Review>, submissions: seq<Submission>, i: nat, reviewed: bool)
    requires i < |submissions|
    ensures var latest := LatestDecision(runs, reviews, submissions[i].id);
            PiiCount(p, runs, reviews, submissions[..i + 1], reviewed)
            == PiiCount(p, runs, reviews, submissions[..i], reviewed)
               + if PiiDue(p, latest, submissions[i]) && latest.Some? == reviewed then 1 else 0
  {
    assert submissions[..i + 1][..i] == submissions[..i];
  }

  lemma NetworkKeepsIds(p: Policy, before: seq<Submission>, after: seq<Submission>)
    requires |after| == |before| && forall k :: 0 <= k < |before| ==> after[k] == NetworkStep(p, before[k])
    ensures forall k :: 0 <= k < |before| ==> after[k].id == before[k].id
  {
  }

  lemma {:induction false} NetworkKeepsPiiCount(p: Policy, runs: seq<Run>, reviews: seq<Review>,
                                                before: seq<Submission>, after: seq<Submission>, reviewed: bool)
    requires |after| == |before| && forall k :: 0 <= k < |before| ==> after[k] == NetworkStep(p, before[k])
    ensures PiiCount(p, runs, reviews, after, reviewed) == PiiCount(p, runs, reviews, before, reviewed)
    decreases |before|
  {
    hide LatestDecision;
    if before != [] {
      var n := |before| - 1;
      NetworkKeepsPiiCount(p, runs, reviews, before[..n], after[..n], reviewed);
    }
  }

  // ----- A count is a change

  lemma DueMeansChange(p: Policy, runs: seq<Run>, reviews: seq<Review>, s: Submission)
    ensures SubmissionStep(p, runs, reviews, s) != s <==> NetworkDue(p, s) || PiiDue(p, LatestDecision(runs, reviews, s.id), s)
  {
    hide LatestDecision;
  }

  lemma AssociationMeansChange(runs: seq<Run>, ids: set<string>, e: Evidence)
    ensures AssociationStep(runs, ids, e) != e <==> AssociationDue(runs, ids, e)
  {
    hide Associated;
    if AssociationDue(runs, ids, e) {
      assert ASSOCIATION_KEY !in ScrubAssociation(e).payload.value;
    }
  }

  lemma {:induction false} NoNetworkCount(p: Policy, submissions: seq<Submission>)
    ensures NetworkCount(p, submissions) == 0 <==> forall i :: 0 <= i < |submissions| ==> !NetworkDue(p, submissions[i])
    decreases |submissions|
  {
    hide NetworkDue;
    if submissions != [] {
      NoNetworkCount(p, submissions[..|submissions| - 1]);
    }
  }

  lemma {:induction false} NoPiiCount(p: Policy, runs: seq<Run>, reviews: seq<Review>, submissions: seq<Submission>)
    ensures PiiCount(p, runs, reviews, submissions, true) + PiiCount(p, runs, reviews, submissions, false) == 0
            <==> forall i :: 0 <= i < |submissions| ==> !PiiDue(p, LatestDecision(runs, reviews, submissions[i].id), submissions[i])
    decreases |submissions|
  {
    hide PiiDue, LatestDecision;
    if submissions != [] {
      NoPiiCount(p, runs, reviews, submissions[..|submissions| - 1]);
    }
  }

  lemma {:induction false} NoAssociationCount(runs: seq<Run>, ids: set<string>, evidence: seq<Evidence>)
    ensures AssociationCount(runs, ids, evidence) == 0 <==> forall i :: 0 <= i < |evidence| ==> !AssociationDue(runs, ids, evidence[i])
    decreases |evidence|
  {
    hide AssociationDue;
    if evidence != [] {
      NoAssociationCount(runs, ids, evidence[..|evidence| - 1]);
    }
  }

  /** All counts are zero exactly when the pass changes no row. */
  lemma CountsSeeEveryChange(p: Policy, t: Tables)
    ensures SomethingDone(PassCounts(p, t)) <==> Pass(p, t) != t
  {
    hide SubmissionStep, AssociationStep, NetworkCount, PiiCount, AssociationCount, NetworkDue, PiiDue, LatestDecision, AssociationDue;
    var after := Pass(p, t);
    var ids := AnonymizedIds(after.submissions);
    NoNetworkCount(p, t.submissions);
    NoPiiCount(p, t.runs, t.reviews, t.submissions);
    NoAssociationCount(t.runs, ids, t.evidence);
    forall i | 0 <= i < |t.submissions|
      ensures after.submissions[i] != t.submissions[i]
              <==> NetworkDue(p, t.submissions[i]) || PiiDue(p, LatestDecision(t.runs, t.reviews, t.submissions[i].id), t.submissions[i])
    {
      DueMeansChange(p, t.runs, t.reviews, t.submissions[i]);
    }
    forall i | 0 <= i < |t.evidence| ensures after.evidence[i] != t.evidence[i] <==> AssociationDue(t.runs, ids, t.evidence[i]) {
      AssociationMeansChange(t.runs, ids, t.evidence[i]);
    }
    if after.submissions == t.submissions && after.evidence == t.evidence {
      assert after == t;
    }
  }

  // ----- A second pass

  /** No cut-off of `q` is later than that of `p`; the same windows and the same time, for one. */
  predicate NoLater(p: Policy, q: Policy) {
    q.now - q.network <= p.now - p.network && q.now - q.reviewed <= p.now - p.reviewed && q.now - q.unreviewed <= p.now - p.unreviewed
  }

  lemma StepSettles(p: Policy, q: Policy, runs: seq<Run>, reviews: seq<Review>, s: Submission)
    requires NoLater(p, q)
    ensures SubmissionStep(q, runs, reviews, SubmissionStep(p, runs, reviews, s)) == SubmissionStep(p, runs, reviews, s)
  {
    hide LatestDecision, TruncateIp;
  }

  lemma AssociationSettles(runs: seq<Run>, ids: set<string>, e: Evidence)
    ensures AssociationStep(runs, ids, AssociationStep(runs, ids, e)) == AssociationStep(runs, ids, e)
  {
    hide Associated;
    AssociationMeansChange(runs, ids, AssociationStep(runs, ids, e));
    if AssociationDue(runs, ids, e) {
      assert ASSOCIATION_KEY !in ScrubAssociation(e).payload.value;
    }
  }

  /** A second pass whose cut-offs are no later changes no row and counts nothing. */
  lemma RetentionIsIdempotent(p: Policy, q: Policy, t: Tables)
    requires NoLater(p, q)
    ensures Pass(q, Pass(p, t)) == Pass(p, t)
    ensures PassCounts(q, Pass(p, t)) == Counts(0, 0, 0, 0)
  {
    hide SubmissionStep, AssociationStep, PassCounts;
    var once := Pass(p, t);
    var twice := Pass(q, once);
    forall i | 0 <= i < |t.submissions| ensures twice.submissions[i] == once.submissions[i] {
      StepSettles(p, q, t.runs, t.reviews, t.submissions[i]);
    }
    assert twice.submissions == once.submissions;
    forall i | 0 <= i < |t.evidence| ensures twice.evidence[i] == once.evidence[i] {
      AssociationSettles(t.runs, AnonymizedIds(once.submissions), t.evidence[i]);
    }
    assert twice.evidence == once.evidence;
    CountsSeeEveryChange(q, once);
  }

  // ----- What a pass touches

  /** Company data, times and ids never change; the submitter's data change only past the window,
      network data only past theirs. */
  lemma PassTouchesOnly(p: Policy, t: Tables, i: nat)
    requires i < |t.submissions|
    ensures var s, s' := t.submissions[i], Pass(p, t).submissions[i];
            && s' == s.(workEmail := s'.workEmail, pii := s'.pii, sourceIp := s'.sourceIp,
                        userAgent := s'.userAgent, forwardedHeaders := s'.forwardedHeaders)
            && (p.now < WindowEnd(p, LatestDecision(t.runs, t.reviews, s.id), s) ==> s'.pii == s.pii && s'.workEmail == s.workEmail)
            && (p.now < s.submittedAt + p.network
                ==> s'.sourceIp == s.sourceIp && s'.userAgent == s.userAgent && s'.forwardedHeaders == s.forwardedHeaders)
  {
    hide LatestDecision, TruncateIp;
  }

  /** Past the window the submitter's data are gone, except from a submission that came in with the
      placeholder address: that one is taken for done. */
  lemma PiiGoneExactly(p: Policy, t: Tables, i: nat)
    requires i < |t.submissions|
    requires WindowEnd(p, LatestDecision(t.runs, t.reviews, t.submissions[i].id), t.submissions[i]) <= p.now
    ensures Pass(p, t).submissions[i].workEmail == ANONYMIZED_EMAIL
    ensures Pass(p, t).submissions[i].pii == Pii(None, None, None, None, None, None)
            <==> t.submissions[i].workEmail != ANONYMIZED_EMAIL || t.submissions[i].pii == NO_PII
  {
    hide LatestDecision, TruncateIp;
  }

  /** Past the network window a pass leaves no user agent, no forwarded headers and no whole address:
      what was not done yet is cut to its network, or dropped if unreadable; before it, nothing is
      touched. */
  lemma NetworkGoneExactly(p: Policy, t: Tables, i: nat)
    requires i < |t.submissions|
    ensures var s, s' := t.submissions[i], Pass(p, t).submissions[i];
            var done := s.userAgent == None && s.forwardedHeaders == None && (s.sourceIp == None || '/' in s.sourceIp.value);
            if s.submittedAt + p.network <= p.now && !done then
              && s'.userAgent == None && s'.forwardedHeaders == None
              && s'.sourceIp == (if s.sourceIp == None then None else TruncateIp(p, s.sourceIp.value))
            else
              s'.userAgent == s.userAgent && s'.forwardedHeaders == s.forwardedHeaders && s'.sourceIp == s.sourceIp
  {
    hide LatestDecision, TruncateIp;
  }

  /** After a pass no such evidence of an anonymized submission names people, whenever the
      submission was anonymized and whenever the evidence was written; the rest of the payload
      stays, and so does other evidence. */
  lemma NamesAreSwept(p: Policy, t: Tables, i: nat)
    requires i < |t.evidence|
    ensures var e, e', submissions := t.evidence[i], Pass(p, t).evidence[i], Pass(p, t).submissions;
            var swept := e.field == "linkedin_presence"
                         && exists r, s :: r in t.runs && s in submissions && r.id == e.runId && r.submissionId == s.id
                                           && s.workEmail == "redacted@anonymized.invalid";
            && (swept ==> e'.payload.None? || "associated_people" !in e'.payload.value)
            && (!swept ==> e' == e)
            && e' == e.(payload := e'.payload)
            && (e.payload.Some? ==> e'.payload.Some? && e'.payload.value - {ASSOCIATION_KEY} == e.payload.value - {ASSOCIATION_KEY})
  {
    AssociatedMeans(t.runs, Pass(p, t).submissions, t.evidence[i]);
    hide Associated, AnonymizedIds, SubmissionStep;
  }

  lemma AssociatedMeans(runs: seq<Run>, submissions: seq<Submission>, e: Evidence)
    ensures Associated(runs, AnonymizedIds(submissions), e) <==>
              && e.field == "linkedin_presence"
              && exists r, s :: r in runs && s in submissions && r.id == e.runId && r.submissionId == s.id
                                && s.workEmail == "redacted@anonymized.invalid"
  {
    var ids := AnonymizedIds(submissions);
    if Associated(runs, ids, e) {
      var i :| 0 <= i < |runs| && runs[i].id == e.runId && runs[i].submissionId in ids;
      var j :| 0 <= j < |submissions| && submissions[j].workEmail == ANONYMIZED_EMAIL && submissions[j].id == runs[i].submissionId;
      assert runs[i] in runs && submissions[j] in submissions;
    }
    if r, s :| r in runs && s in submissions && r.id == e.runId && r.submissionId == s.id && s.workEmail == ANONYMIZED_EMAIL {
      var i :| 0 <= i < |runs| && runs[i] == r;
      var j :| 0 <= j < |submissions| && submissions[j] == s;
      assert submissions[j].id in ids;
    }
  }

  lemma AlreadyAnonymizedStayListed(p: Policy, t: Tables)
    ensures AnonymizedIds(t.submissions) <= AnonymizedIds(Pass(p, t).submissions)
  {
    hide LatestDecision, TruncateIp;
    forall id | id in AnonymizedIds(t.submissions) ensures id in AnonymizedIds(Pass(p, t).submissions) {
      var i :| 0 <= i < |t.submissions| && t.submissions[i].workEmail == ANONYMIZED_EMAIL && t.submissions[i].id == id;
      assert Pass(p, t).submissions[i].workEmail == ANONYMIZED_EMAIL && Pass(p, t).submissions[i].id == id;
    }
  }

  /** A submission with the placeholder address, past any window, keeps its tax id for good.  Intake
      rejects that address (backend/app/schemas/submission.py:60), but an operator's correction is
      stored without a check (backend/app/api/workflow.py:181-183). */
  lemma PlaceholderKeepsPii(p: Policy)
    requires p.unreviewed <= p.now
    ensures var pii := Pii(Some("12-3456789"), None, None, None, None, None);
            var s := Submission("s", "Acme", "acme.com", "US", 0, ANONYMIZED_EMAIL, pii, None, None, None);
            WindowEnd(p, LatestDecision([], [], "s"), s) <= p.now && Pass(p, Tables([s], [], [], [])).submissions[0].pii == pii
  {
  }

  /** A later pass, and the reviews there are by then. */
  datatype Moment = Moment(policy: Policy, runs: seq<Run>, reviews: seq<Review>)

  /** The row after these passes. */
  function RowAfter(moments: seq<Moment>, s: Submission): Submission {
    if moments == [] then s
    else
      var m := moments[|moments| - 1];
      SubmissionStep(m.policy, m.runs, m.reviews, RowAfter(moments[..|moments| - 1], s))
  }

  lemma {:induction false} AnonymizedStays(moments: seq<Moment>, s: Submission)
    requires s.workEmail == ANONYMIZED_EMAIL
    ensures RowAfter(moments, s).workEmail == ANONYMIZED_EMAIL && RowAfter(moments, s).pii == s.pii
    decreases |moments|
  {
    hide LatestDecision, TruncateIp;
    if moments != [] {
      AnonymizedStays(moments[..|moments| - 1], s);
    }
  }

  /** So does whatever personal data a correction adds to a submission that a pass has anonymized,
      through any sequence of later passes, for as long as the address is not corrected too. */
  lemma CorrectionAfterwardsStays(first: Moment, later: seq<Moment>, s: Submission, correction: Pii)
    requires PiiDue(first.policy, LatestDecision(first.runs, first.reviews, s.id), NetworkStep(first.policy, s))
    ensures var done := RowAfter([first], s);
            done.pii == NO_PII && RowAfter(later, done.(pii := correction)).pii == correction
  {
    hide LatestDecision, TruncateIp;
    assert [first][..|[first]| - 1] == [];
    assert RowAfter([first], s) == SubmissionStep(first.policy, first.runs, first.reviews, s);
    AnonymizedStays(later, RowAfter([first], s).(pii := correction));
  }
}
