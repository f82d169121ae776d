/** Submitting a chain head: every calendar is asked in turn, and the time-stamp
    authorities until one answers. */
module Submission {
  import opened Base
  import opened Clock
  import opened ProofTree

  datatype Schedule = Schedule(enabled: bool, calendarServers: seq<string>, tsaUrls: seq<string>)

  /** The answer of the i-th calendar; None stands for any exception of the call. */
  type Submit = nat -> Option<Stamp>

  datatype Token = Token(blob: Bytes, url: string, genTime: DateTime)

  datatype TsaReply = Answer(token: Token) | TsaError | Crash

  type AskTsa = nat -> TsaReply

  // ---- the OpenTimestamps track ------------------------------------------------------

  datatype OtsResult = OtsResult(accepted: seq<string>, proof: Stamp)

  /** The loop from the i-th calendar on; None when a merge raised, which the loop does
      not absorb. */
  function OtsFrom(f: Apply, sofar: OtsResult, urls: seq<string>, submit: Submit, i: nat): Option<OtsResult>
    requires i <= |urls|
    decreases |urls| - i
  {
    if i == |urls| then Some(sofar)
    else if submit(i).None? then OtsFrom(f, sofar, urls, submit, i + 1)
    else
      match Merge(f, sofar.proof, submit(i).value)
      case None => None
      case Some(m) => OtsFrom(f, OtsResult(sofar.accepted + [urls[i]], m), urls, submit, i + 1)
  }

  function OtsTrack(f: Apply, head: Bytes, urls: seq<string>, submit: Submit): Option<OtsResult> {
    OtsFrom(f, OtsResult([], Stamp(head, [], [])), urls, submit, 0)
  }

  method SubmitOtsTrack(f: Apply, head: Bytes, urls: seq<string>, submit: Submit) returns (r: Option<OtsResult>)
    ensures r == OtsTrack(f, head, urls, submit)
  {
    var merged, accepted := Stamp(head, [], []), [];
    for i := 0 to |urls|
      invariant OtsTrack(f, head, urls, submit) == OtsFrom(f, OtsResult(accepted, merged), urls, submit, i)
    {
      var partial := submit(i);
      if partial.Some? {
        var m := Merge(f, merged, partial.value);
        if m.None? { return None; }
        merged := m.value;
        accepted := accepted + [urls[i]];
      }
    }
    return Some(OtsResult(accepted, merged));
  }

  /** The calendars that answered, in order, from the i-th on. */
  function Answering(urls: seq<string>, submit: Submit, i: nat): seq<string>
    requires i <= |urls|
    decreases |urls| - i
  {
    if i == |urls| then []
    else (if submit(i).Some? then [urls[i]] else []) + Answering(urls, submit, i + 1)
  }

  ghost predicate FormedPartials(f: Apply, urls: seq<string>, submit: Submit) {
    forall k | 0 <= k < |urls| :: submit(k).Some? ==> WellFormed(f, submit(k).value)
  }

  ghost predicate ProveHead(head: Bytes, urls: seq<string>, submit: Submit, i: nat) {
    forall k | i <= k < |urls| :: submit(k).Some? ==> submit(k).value.msg == head
  }

  ghost predicate InPartials(urls: seq<string>, submit: Submit, i: nat, p: Pair) {
    exists k | i <= k < |urls| :: submit(k).Some? && p in AllPairs(submit(k).value)
  }

  /** `r` is the exact result of the loop from the i-th calendar on: an exception exactly
      when a calendar answers for another digest, otherwise the calendars that answer, in
      order, and a proof that gains exactly the attestations of their answers. */
  ghost predicate OtsExact(f: Apply, sofar: OtsResult, urls: seq<string>, submit: Submit, i: nat, r: Option<OtsResult>)
    requires i <= |urls|
  {
    && (r.Some? <==> ProveHead(sofar.proof.msg, urls, submit, i))
    && (r.Some? ==>
          && r.value.accepted == sofar.accepted + Answering(urls, submit, i)
          && WellFormed(f, r.value.proof) && r.value.proof.msg == sofar.proof.msg
          && forall p :: p in AllPairs(r.value.proof) <==>
               p in AllPairs(sofar.proof) || InPartials(urls, submit, i, p))
  }

  lemma PartialsFrom(urls: seq<string>, submit: Submit, i: nat)
    requires i < |urls|
    ensures forall p :: InPartials(urls, submit, i, p) <==>
              (submit(i).Some? && p in AllPairs(submit(i).value)) || InPartials(urls, submit, i + 1, p)
  {}

  lemma ProveHeadFrom(head: Bytes, urls: seq<string>, submit: Submit, i: nat)
    requires i < |urls|
    ensures ProveHead(head, urls, submit, i) <==>
              (submit(i).Some? ==> submit(i).value.msg == head) && ProveHead(head, urls, submit, i + 1)
  {}

  /** A calendar that fails is passed over. */
  lemma OtsSkipped(f: Apply, sofar: OtsResult, urls: seq<string>, submit: Submit, i: nat, r: Option<OtsResult>)
    requires i < |urls| && submit(i).None? && OtsExact(f, sofar, urls, submit, i + 1, r)
    ensures OtsExact(f, sofar, urls, submit, i, r)
  {
    PartialsFrom(urls, submit, i);
    ProveHeadFrom(sofar.proof.msg, urls, submit, i);
  }

  /** A calendar that answers is accepted, and its answer merged. */
  lemma OtsMerged(f: Apply, sofar: OtsResult, next: OtsResult, urls: seq<string>, submit: Submit, i: nat, r: Option<OtsResult>)
    requires i < |urls| && submit(i).Some? && submit(i).value.msg == sofar.proof.msg
    requires next.accepted == sofar.accepted + [urls[i]] && next.proof.msg == sofar.proof.msg
    requires forall p :: p in AllPairs(next.proof) <==> p in AllPairs(sofar.proof) || p in AllPairs(submit(i).value)
    requires OtsExact(f, next, urls, submit, i + 1, r)
    ensures OtsExact(f, sofar, urls, submit, i, r)
  {
    PartialsFrom(urls, submit, i);
    ProveHeadFrom(sofar.proof.msg, urls, submit, i);
    assert next.accepted + Answering(urls, submit, i + 1) == sofar.accepted + Answering(urls, submit, i);
  }

  lemma {:induction false} OtsFromExact(f: Apply, sofar: OtsResult, urls: seq<string>, submit: Submit, i: nat)
    requires i <= |urls| && WellFormed(f, sofar.proof) && FormedPartials(f, urls, submit)
    ensures OtsExact(f, sofar, urls, submit, i, OtsFrom(f, sofar, urls, submit, i))
    decreases |urls| - i
  {
    if i == |urls| {
    } else if submit(i).None? {
      OtsFromExact(f, sofar, urls, submit, i + 1);
      OtsSkipped(f, sofar, urls, submit, i, OtsFrom(f, sofar, urls, submit, i + 1));
    } else if submit(i).value.msg == sofar.proof.msg {
      MergeIsUnion(f, sofar.proof, submit(i).value);
      var next := OtsResult(sofar.accepted + [urls[i]], Merge(f, sofar.proof, submit(i).value).value);
      OtsFromExact(f, next, urls, submit, i + 1);
      OtsMerged(f, sofar, next, urls, submit, i, OtsFrom(f, next, urls, submit, i + 1));
    } else {
      ProveHeadFrom(sofar.proof.msg, urls, submit, i);
    }
  }

  /** The track raises exactly when a calendar answered for another digest. Otherwise it
      accepts the calendars that answered, in order, and its proof holds exactly the
      attestations of their answers, whichever calendars failed. */
  lemma OtsTrackExact(f: Apply, head: Bytes, urls: seq<string>, submit: Submit)
    requires FormedPartials(f, urls, submit)
    ensures var r := OtsTrack(f, head, urls, submit);
            && (r.Some? <==> ProveHead(head, urls, submit, 0))
            && (r.Some? ==>
                  && r.value.accepted == Answering(urls, submit, 0)
                  && WellFormed(f, r.value.proof) && r.value.proof.msg == head
                  && forall p :: p in AllPairs(r.value.proof) <==> InPartials(urls, submit, 0, p))
  {
    var start := OtsResult([], Stamp(head, [], []));
    assert AllPairs(start.proof) == [];
    OtsFromExact(f, start, urls, submit, 0);
    assert start.accepted + Answering(urls, submit, 0) == Answering(urls, submit, 0);
  }

  // ---- the RFC 3161 track --------------------------------------------------------------

  datatype TsaResult = NoToken | Got(token: Token) | TsaRaised

  ghost predicate OnlyErrors(ask: AskTsa, from: nat, to: nat) {
    forall k | from <= k < to :: ask(k).TsaError?
  }

  /** The first answer that is not a TSAError decides: a token ends the search, any other
      exception passes through. */
  function TsaFrom(n: nat, ask: AskTsa, i: nat): (r: TsaResult)
    requires i <= n
    ensures r.NoToken? <==> OnlyErrors(ask, i, n)
    ensures forall t :: r == Got(t) <==> exists k | i <= k < n :: OnlyErrors(ask, i, k) && ask(k) == Answer(t)
    ensures r.TsaRaised? <==> exists k | i <= k < n :: OnlyErrors(ask, i, k) && ask(k).Crash?
    decreases n - i
  {
    if i == n then NoToken
    else
      match ask(i)
      case Answer(t) =>
        assert OnlyErrors(ask, i, i);
        Got(t)
      case Crash =>
        assert OnlyErrors(ask, i, i);
        TsaRaised
      case TsaError =>
        assert forall k | i < k <= n :: OnlyErrors(ask, i, k) <==> OnlyErrors(ask, i + 1, k);
        TsaFrom(n, ask, i + 1)
  }

  method SubmitTsaTrack(urls: seq<string>, ask: AskTsa) returns (r: TsaResult)
    ensures r == TsaFrom(|urls|, ask, 0)
  {
    for i := 0 to |urls|
      invariant TsaFrom(|urls|, ask, 0) == TsaFrom(|urls|, ask, i)
    {
      match ask(i)
      case Answer(t) => return Got(t);
      case Crash => return TsaRaised;
      case TsaError =>
    }
    return NoToken;
  }

  // ---- which calendars are accepted, one by one ------------------------------------------

  /** How many of the calendars from `i` up to `k` answer. */
  function Answers(submit: Submit, i: nat, k: nat): nat
    requires i <= k
    decreases k - i
  {
    if i == k then 0 else (if submit(i).Some? then 1 else 0) + Answers(submit, i + 1, k)
  }

  lemma {:induction false} AnsweringLength(urls: seq<string>, submit: Submit, i: nat)
    requires i <= |urls|
    ensures |Answering(urls, submit, i)| == Answers(submit, i, |urls|)
    decreases |urls| - i
  {
    if i == |urls| {
    } else {
      AnsweringLength(urls, submit, i + 1);
    }
  }

  /** A calendar that answers stands in the list behind exactly those before it that do. */
  lemma {:induction false} AnsweringInOrder(urls: seq<string>, submit: Submit, i: nat, k: nat)
    requires i <= k < |urls| && submit(k).Some?
    ensures |Answering(urls, submit, i)| == Answers(submit, i, |urls|)
    ensures Answers(submit, i, k) < |Answering(urls, submit, i)|
    ensures Answering(urls, submit, i)[Answers(submit, i, k)] == urls[k]
    decreases k - i
  {
    AnsweringLength(urls, submit, i);
    if i == k {
    } else {
      AnsweringInOrder(urls, submit, i + 1, k);
    }
  }
}
