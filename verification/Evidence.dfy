/** Filter evidence of a route decision: one counter per reason, in order of first appearance. */
module Evidence {
  datatype FilterReason =
    | GroupTargetInactive | TargetMissing | TargetInactive | ProtocolMismatch | StreamingUnsupported
    | EndpointMissing | EndpointInactive | EndpointProtocolMismatch | EndpointDrained | EndpointUnhealthy
    | EndpointHealthBlocked | CredentialMissing | CredentialUnusable | ProviderGrantDenied

  datatype FilterSummary = FilterSummary(reason: FilterReason, count: nat)

  /** Adds one to the entry of a reason, or appends a first entry for it. */
  ghost function AddReason(summary: seq<FilterSummary>, reason: FilterReason): seq<FilterSummary>
  {
    if summary == [] then [FilterSummary(reason, 1)]
    else if summary[0].reason == reason then [FilterSummary(reason, summary[0].count + 1)] + summary[1..]
    else [summary[0]] + AddReason(summary[1..], reason)
  }

  ghost function Tally(reasons: seq<FilterReason>): seq<FilterSummary>
  {
    if reasons == [] then [] else AddReason(Tally(reasons[..|reasons| - 1]), reasons[|reasons| - 1])
  }

  ghost function CountOf(summary: seq<FilterSummary>, reason: FilterReason): nat
  {
    if summary == [] then 0
    else (if summary[0].reason == reason then summary[0].count else 0) + CountOf(summary[1..], reason)
  }

  ghost function Total(summary: seq<FilterSummary>): nat
  {
    if summary == [] then 0 else summary[0].count + Total(summary[1..])
  }

  /** Distinct reasons, no empty entry. */
  ghost predicate WellFormed(summary: seq<FilterSummary>)
  {
    && (forall i, j :: 0 <= i < j < |summary| ==> summary[i].reason != summary[j].reason)
    && (forall i :: 0 <= i < |summary| ==> summary[i].count > 0)
  }

  lemma {:induction false} AddReasonCounts(summary: seq<FilterSummary>, reason: FilterReason, r: FilterReason)
    ensures CountOf(AddReason(summary, reason), r) == CountOf(summary, r) + if r == reason then 1 else 0
  {
    if summary == [] {
    } else {
      AddReasonTail(summary, reason);
      AddReasonCounts(summary[1..], reason, r);
    }
  }

  lemma {:induction false} AddReasonTotal(summary: seq<FilterSummary>, reason: FilterReason)
    ensures Total(AddReason(summary, reason)) == Total(summary) + 1
  {
    if summary == [] {
    } else {
      AddReasonTail(summary, reason);
      AddReasonTotal(summary[1..], reason);
    }
  }

  lemma AddReasonTail(summary: seq<FilterSummary>, reason: FilterReason)
    requires summary != []
    ensures AddReason(summary, reason)[1..] ==
            if summary[0].reason == reason then summary[1..] else AddReason(summary[1..], reason)
  {}

  /** Where a reason lands: on its first entry, or past the end. */
  lemma {:induction false} AddReasonAt(summary: seq<FilterSummary>, reason: FilterReason, k: nat)
    requires k <= |summary| && forall j :: 0 <= j < k ==> summary[j].reason != reason
    requires k < |summary| ==> summary[k].reason == reason
    ensures AddReason(summary, reason) ==
            if k < |summary| then summary[k := FilterSummary(reason, summary[k].count + 1)]
            else summary + [FilterSummary(reason, 1)]
  {
    if k == 0 {
    } else {
      AddReasonAt(summary[1..], reason, k - 1);
      assert summary == [summary[0]] + summary[1..];
    }
  }

  lemma AddReasonWellFormed(summary: seq<FilterSummary>, reason: FilterReason)
    requires WellFormed(summary)
    ensures WellFormed(AddReason(summary, reason))
  {
    if k :| 0 <= k < |summary| && summary[k].reason == reason {
      AddReasonAt(summary, reason, k);
    } else {
      AddReasonAt(summary, reason, |summary|);
    }
  }

  /** The summary of a list of reasons is its multiset: each reason once, with its multiplicity. */
  lemma {:induction false} TallyCounts(reasons: seq<FilterReason>)
    ensures WellFormed(Tally(reasons))
    ensures forall r :: CountOf(Tally(reasons), r) == multiset(reasons)[r]
    ensures Total(Tally(reasons)) == |reasons|
  {
    if reasons == [] {
    } else {
      var init, last := reasons[..|reasons| - 1], reasons[|reasons| - 1];
      assert reasons == init + [last];
      TallyCounts(init);
      AddReasonWellFormed(Tally(init), last);
      forall r ensures CountOf(Tally(reasons), r) == multiset(reasons)[r] { AddReasonCounts(Tally(init), last, r); }
      AddReasonTotal(Tally(init), last);
    }
  }

  lemma {:induction false} CountOfEntry(summary: seq<FilterSummary>, k: nat)
    requires k < |summary|
    ensures CountOf(summary, summary[k].reason) >= summary[k].count
  {
    if k == 0 {
    } else {
      CountOfEntry(summary[1..], k - 1);
    }
  }

  /** Every entry of a summary stands for a reason that occurred. */
  lemma TallyReasons(reasons: seq<FilterReason>, entry: FilterSummary)
    requires entry in Tally(reasons)
    ensures entry.reason in reasons
  {
    TallyCounts(reasons);
    var k :| 0 <= k < |Tally(reasons)| && Tally(reasons)[k] == entry;
    CountOfEntry(Tally(reasons), k);
    assert multiset(reasons)[entry.reason] > 0;
  }

  ghost function ReasonsOf(summary: seq<FilterSummary>): seq<FilterReason>
  {
    seq(|summary|, i requires 0 <= i < |summary| => summary[i].reason)
  }

  /** Entries keep their place: a later reason adds to its entry or starts a new one at the end. */
  lemma TallyKeepsOrder(reasons: seq<FilterReason>, reason: FilterReason)
    ensures ReasonsOf(Tally(reasons + [reason]))
         == ReasonsOf(Tally(reasons)) + if reason in reasons then [] else [reason]
  {
    var summary := Tally(reasons);
    TallyAppend(reasons, reason);
    TallyCounts(reasons);
    if k :| 0 <= k < |summary| && summary[k].reason == reason {
      AddReasonAt(summary, reason, k);
      TallyReasons(reasons, summary[k]);
    } else {
      AddReasonAt(summary, reason, |summary|);
      NoEntryNoCount(summary, reason);
      assert multiset(reasons)[reason] == 0;
    }
  }

  lemma {:induction false} NoEntryNoCount(summary: seq<FilterSummary>, reason: FilterReason)
    requires forall k :: 0 <= k < |summary| ==> summary[k].reason != reason
    ensures CountOf(summary, reason) == 0
  {
    if summary == [] {
    } else {
      NoEntryNoCount(summary[1..], reason);
    }
  }

  lemma TallyAppend(reasons: seq<FilterReason>, reason: FilterReason)
    ensures Tally(reasons + [reason]) == AddReason(Tally(reasons), reason)
  {
    assert (reasons + [reason])[..|reasons|] == reasons;
  }

  /** The two accumulators the planner threads through a plan. */
  class FilterEvidence {
    var summary: seq<FilterSummary>
    var providerGrantDenied: bool

    /** The evidence after exactly these candidates were filtered, in this order. */
    ghost predicate Records(reasons: seq<FilterReason>)
      reads this
    {
      summary == Tally(reasons) && (providerGrantDenied <==> ProviderGrantDenied in reasons)
    }

    constructor ()
      ensures Records([])
    {
      summary, providerGrantDenied := [], false;
    }

    method AddFilterReason(reason: FilterReason)
      modifies this`summary
      ensures summary == AddReason(old(summary), reason)
    {
      var k := 0;
      while k < |summary| && summary[k].reason != reason
        invariant 0 <= k <= |summary| && summary == old(summary)
        invariant forall j :: 0 <= j < k ==> summary[j].reason != reason
      {
        k := k + 1;
      }
      AddReasonAt(summary, reason, k);
      if k < |summary| {
        summary := summary[k := FilterSummary(reason, summary[k].count + 1)];
      } else {
        summary := summary + [FilterSummary(reason, 1)];
      }
    }

    /** What the planner does with every filtered candidate. */
    method Note(reason: FilterReason, ghost reasons: seq<FilterReason>)
      requires Records(reasons)
      modifies this
      ensures Records(reasons + [reason])
    {
      if reason == ProviderGrantDenied { providerGrantDenied := true; }
      TallyAppend(reasons, reason);
      AddFilterReason(reason);
    }
  }
}
