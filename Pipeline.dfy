/**
 * The orchestration in scripts/pipeline.py: whether the annotation step runs, and the
 * generate/verify attempt loop with its budget of `max_retries` attempts.
 */
module Pipeline {
  import opened Wrappers
  import opened Text
  import opened Verify

  // ---- annotate or skip ----

  predicate EndsWith(s: string, suffix: string)
  {
    |suffix| <= |s| && s[|s| - |suffix|..] == suffix
  }

  /** `has_annotated_photos`: the annotated folder exists and holds an annotated image or a notes file. */
  function HasAnnotatedPhotos(folderExists: bool, listing: seq<string>): (r: bool)
    ensures r <==> folderExists &&
                   exists k :: 0 <= k < |listing| &&
                     (EndsWith(listing[k], "_annotated.jpg") || EndsWith(listing[k], "_notes.md"))
  {
    if !folderExists || listing == [] then false
    else
      var last := listing[|listing| - 1];
      if EndsWith(last, "_annotated.jpg") || EndsWith(last, "_notes.md") then true
      else
        var rest := HasAnnotatedPhotos(folderExists, listing[..|listing| - 1]);
        assert forall k :: 0 <= k < |listing| - 1 ==> listing[..|listing| - 1][k] == listing[k];
        rest
  }

  /** The three ways step 1 of the pipeline can go. */
  datatype AnnotationStep = RunAnnotation | AlreadyAnnotated | SkippedByFlag

  /** Step 1: annotate unless `--skip-annotate` is given or annotations already exist. */
  function AnnotationDecision(skipAnnotate: bool, hasAnnotated: bool): (r: AnnotationStep)
    ensures r == RunAnnotation <==> !skipAnnotate && !hasAnnotated
    ensures r == AlreadyAnnotated <==> hasAnnotated
    ensures r == SkippedByFlag <==> skipAnnotate && !hasAnnotated
  {
    if !skipAnnotate && !hasAnnotated then RunAnnotation
    else if hasAnnotated then AlreadyAnnotated
    else SkippedByFlag
  }

  // ---- the attempt loop ----

  /** What one attempt produced: no image, or an image and its verdict from `handle_verdict`. */
  datatype Outcome = GenerationFailed | Verified(verdict: Category)

  /** How `main` leaves the attempt loop. */
  datatype Ending =
    | Completed             // a PASS verdict: "PIPELINE COMPLETE"
    | GenerationExhausted   // generation failed on the last attempt
    | MarginalExhausted     // a MARGINAL verdict on the last attempt
    | AllAttemptsFinished   // the loop ran out (every later path, including max_retries <= 0)

  /** The first attempt in `from..last` whose verdict is PASS. */
  function PassIndex(outcome: nat -> Outcome, from: nat, last: int): (r: Option<nat>)
    ensures r.Some? ==> from <= r.value <= last && outcome(r.value) == Verified(Pass)
    decreases last - from
  {
    if last < from then None
    else if outcome(from) == Verified(Pass) then Some(from)
    else PassIndex(outcome, from + 1, last)
  }

  /** The PASS found is the first one in the range, and when none is found there is none. */
  lemma {:induction false} PassIndexFirst(outcome: nat -> Outcome, from: nat, last: int)
    ensures var r := PassIndex(outcome, from, last);
            && (r.Some? ==> forall k :: from <= k < r.value ==> outcome(k) != Verified(Pass))
            && (r.None? ==> forall k :: from <= k <= last ==> outcome(k) != Verified(Pass))
    decreases last - from
  {
    if from <= last && outcome(from) != Verified(Pass) {
      PassIndexFirst(outcome, from + 1, last);
    }
  }

  /** The number of times `generate` is called: up to and including the first PASS, else the whole budget. */
  function Calls(maxRetries: int, outcome: nat -> Outcome): nat
  {
    match PassIndex(outcome, 1, maxRetries)
    case Some(k) => k
    case None => if maxRetries < 0 then 0 else maxRetries
  }

  /** The attempts among `1..n` whose generation produced an image, in order. */
  function VerifiedAttempts(outcome: nat -> Outcome, n: nat): seq<nat>
  {
    if n == 0 then []
    else
      var rest := VerifiedAttempts(outcome, n - 1);
      if outcome(n).Verified? then rest + [n] else rest
  }

  /** The verified attempts are exactly those in `1..n` that produced an image, each once, in increasing order. */
  lemma {:induction false} VerifiedAttemptsExact(outcome: nat -> Outcome, n: nat)
    ensures var r := VerifiedAttempts(outcome, n);
            && (forall k :: k in r <==> 1 <= k <= n && outcome(k).Verified?)
            && (forall i :: 0 <= i < |r| ==> 1 <= r[i] <= n)
            && (forall i, j :: 0 <= i < j < |r| ==> r[i] < r[j])
  {
    if n > 0 {
      VerifiedAttemptsExact(outcome, n - 1);
    }
  }

  /** How the loop ends, read off the last attempt made. */
  function EndingOf(maxRetries: int, outcome: nat -> Outcome): Ending
  {
    if PassIndex(outcome, 1, maxRetries).Some? then Completed
    else if maxRetries < 1 then AllAttemptsFinished
    else match outcome(maxRetries)
      case GenerationFailed => GenerationExhausted
      case Verified(Marginal) => MarginalExhausted
      case _ => AllAttemptsFinished
  }

  /**
   * The attempt loop of `main`. `outcome(k)` is what attempt `k` produced; the loop
   * reports how many attempts it made, which of them were verified, and how it ended.
   */
  method RunAttempts(maxRetries: int, outcome: nat -> Outcome)
    returns (calls: nat, verified: seq<nat>, ending: Ending)
    ensures calls == Calls(maxRetries, outcome)
    ensures verified == VerifiedAttempts(outcome, calls)
    ensures ending == EndingOf(maxRetries, outcome)
  {
    calls, verified := 0, [];
    var attempt := 1;
    while attempt <= maxRetries
      invariant 1 <= attempt && calls == attempt - 1
      invariant maxRetries >= 1 ==> attempt <= maxRetries + 1
      invariant maxRetries < 1 ==> attempt == 1
      invariant attempt > maxRetries && attempt > 1 ==>
                  outcome(attempt - 1).Verified? && outcome(attempt - 1).verdict in {Reject, Unknown}
      invariant PassIndex(outcome, 1, maxRetries) == PassIndex(outcome, attempt, maxRetries)
      invariant verified == VerifiedAttempts(outcome, calls)
      decreases maxRetries - attempt
    {
      calls := calls + 1;
      var result := outcome(attempt);
      if result.GenerationFailed? {
        if attempt < maxRetries {
          attempt := attempt + 1;
          continue;
        } else {
          ending := GenerationExhausted;
          return;
        }
      }
      verified := verified + [attempt];
      if result.verdict == Pass {
        ending := Completed;
        return;
      }
      if result.verdict == Marginal {
        if attempt < maxRetries {
          attempt := attempt + 1;
          continue;
        } else {
          ending := MarginalExhausted;
          return;
        }
      }
      attempt := attempt + 1;
    }
    ending := AllAttemptsFinished;
  }

  /** The budget: at most `max_retries` calls, none when it is not positive, and none after a PASS. */
  lemma CallsBounds(maxRetries: int, outcome: nat -> Outcome)
    ensures Calls(maxRetries, outcome) <= (if maxRetries < 0 then 0 else maxRetries)
    ensures maxRetries <= 0 ==> Calls(maxRetries, outcome) == 0
    ensures forall k :: 1 <= k < Calls(maxRetries, outcome) ==> outcome(k) != Verified(Pass)
    ensures EndingOf(maxRetries, outcome) == Completed <==>
              exists k :: 1 <= k <= maxRetries && outcome(k) == Verified(Pass)
    ensures EndingOf(maxRetries, outcome) != Completed ==>
              Calls(maxRetries, outcome) == (if maxRetries < 0 then 0 else maxRetries)
  {
    PassIndexFirst(outcome, 1, maxRetries);
    if PassIndex(outcome, 1, maxRetries).Some? {
      var k := PassIndex(outcome, 1, maxRetries).value;
      assert 1 <= k <= maxRetries && outcome(k) == Verified(Pass);
    }
  }

  /** The loop stops exactly at the first PASS. */
  lemma StopsAtFirstPass(maxRetries: int, outcome: nat -> Outcome, k: nat)
    requires 1 <= k <= maxRetries && outcome(k) == Verified(Pass)
    requires forall j :: 1 <= j < k ==> outcome(j) != Verified(Pass)
    ensures Calls(maxRetries, outcome) == k
    ensures EndingOf(maxRetries, outcome) == Completed
  {
    PassIndexFirst(outcome, 1, maxRetries);
  }

  /** A generation failure on the last attempt ends the run without a verification of that attempt. */
  lemma FailureOnLastAttempt(maxRetries: int, outcome: nat -> Outcome)
    requires maxRetries >= 1 && outcome(maxRetries) == GenerationFailed
    requires forall k :: 1 <= k < maxRetries ==> outcome(k) != Verified(Pass)
    ensures Calls(maxRetries, outcome) == maxRetries
    ensures EndingOf(maxRetries, outcome) == GenerationExhausted
    ensures maxRetries !in VerifiedAttempts(outcome, Calls(maxRetries, outcome))
  {
    PassIndexFirst(outcome, 1, maxRetries);
    VerifiedAttemptsExact(outcome, maxRetries);
  }

  /** Only a PASS and a MARGINAL verdict differ from a REJECT: an UNKNOWN verdict takes the REJECT path. */
  predicate AlikeUpToUnknown(o1: Outcome, o2: Outcome)
  {
    o1 == o2 || (o1.Verified? && o2.Verified? && o1.verdict in {Reject, Unknown} && o2.verdict in {Reject, Unknown})
  }

  lemma {:induction false} PassIndexUpToUnknown(o1: nat -> Outcome, o2: nat -> Outcome, from: nat, last: int)
    requires forall k :: from <= k <= last ==> AlikeUpToUnknown(o1(k), o2(k))
    ensures PassIndex(o1, from, last) == PassIndex(o2, from, last)
    decreases last - from
  {
    if from <= last {
      assert AlikeUpToUnknown(o1(from), o2(from));
      PassIndexUpToUnknown(o1, o2, from + 1, last);
    }
  }

  lemma {:induction false} VerifiedUpToUnknown(o1: nat -> Outcome, o2: nat -> Outcome, n: nat)
    requires forall k :: 1 <= k <= n ==> AlikeUpToUnknown(o1(k), o2(k))
    ensures VerifiedAttempts(o1, n) == VerifiedAttempts(o2, n)
  {
    if n > 0 {
      assert AlikeUpToUnknown(o1(n), o2(n));
      VerifiedUpToUnknown(o1, o2, n - 1);
    }
  }

  /** Two runs whose verdicts differ only between REJECT and UNKNOWN make the same calls and end the same way. */
  lemma UnknownActsAsReject(maxRetries: int, o1: nat -> Outcome, o2: nat -> Outcome)
    requires forall k :: 1 <= k <= maxRetries ==> AlikeUpToUnknown(o1(k), o2(k))
    ensures Calls(maxRetries, o1) == Calls(maxRetries, o2)
    ensures VerifiedAttempts(o1, Calls(maxRetries, o1)) == VerifiedAttempts(o2, Calls(maxRetries, o2))
    ensures EndingOf(maxRetries, o1) == EndingOf(maxRetries, o2)
  {
    PassIndexUpToUnknown(o1, o2, 1, maxRetries);
    CallsBounds(maxRetries, o1);
    VerifiedUpToUnknown(o1, o2, Calls(maxRetries, o1));
    if maxRetries >= 1 {
      assert AlikeUpToUnknown(o1(maxRetries), o2(maxRetries));
    }
  }
}
