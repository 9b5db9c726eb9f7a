/**
 Classifying a profile capture against construction rules
 (benchmarks/_line_event_profile_classifier.py).
 */
module LineEventClassifier {
  import opened Prelude

  datatype Frame = Frame(name: string, location: string, line: string)

  /** A frame matcher: a field left out matches anything. */
  datatype FramePattern = FramePattern(name: Option<string>, location: Option<string>, line: Option<string>)
  {
    predicate Matches(frame: Frame)
    {
      && (name.None? || name.value == frame.name)
      && (location.None? || location.value == frame.location)
      && (line.None? || line.value == frame.line)
    }
  }

  datatype Rule = Rule(name: string, frame: FramePattern, callers: seq<FramePattern>)

  datatype Rules = Rules(consumeFrames: seq<FramePattern>, construction: seq<Rule>)

  /** One stack of frames, outermost first, and its sample weight. */
  datatype Stack = Stack(frames: seq<Frame>, samples: nat)

  const HOOK_DISPATCH_BOUNDARY: seq<FramePattern> := [
    FramePattern(Some("_emit_event"), Some("cuprum/_pipeline_types.py"), None),
    FramePattern(Some("_emit_exec_event"), Some("cuprum/_observability.py"), None)
  ]

  predicate AnyMatches(patterns: seq<FramePattern>, frame: Frame)
  {
    exists i :: 0 <= i < |patterns| && patterns[i].Matches(frame)
  }

  // ------------------------------------------------------------ rule resolution

  /** `_caller_depth`: the nearest frame below `index` that one of the rule's callers matches. */
  function CallerDepth(frames: seq<Frame>, index: nat, rule: Rule): (depth: Option<nat>)
    requires index <= |frames|
    ensures depth.Some? ==>
      && depth.value < index && AnyMatches(rule.callers, frames[depth.value])
      && forall j :: depth.value < j < index ==> !AnyMatches(rule.callers, frames[j])
    ensures depth.None? ==> forall j :: 0 <= j < index ==> !AnyMatches(rule.callers, frames[j])
  {
    if index == 0 then None
    else if AnyMatches(rule.callers, frames[index - 1]) then Some(index - 1)
    else CallerDepth(frames, index - 1, rule)
  }

  /** `_crosses_hook_dispatch`: a dispatch frame stands strictly between the caller and the frame. */
  predicate CrossesHookDispatch(frames: seq<Frame>, index: nat, caller: nat)
    requires index <= |frames|
  {
    exists inner :: caller < inner < index && AnyMatches(HOOK_DISPATCH_BOUNDARY, frames[inner])
  }

  /** A caller of the rule reaches the frame at `index` without passing through hook dispatch. */
  predicate Reaches(frames: seq<Frame>, index: nat, rule: Rule, caller: nat)
    requires index <= |frames|
  {
    && caller < index && AnyMatches(rule.callers, frames[caller])
    && !CrossesHookDispatch(frames, index, caller)
  }

  /** The running best of the rule loop: a rule's position and its caller's depth, -1 for none. */
  datatype Best = Best(rule: Option<nat>, depth: int)

  function Better(frames: seq<Frame>, index: nat, rules: seq<Rule>, best: Best, i: nat): Best
    requires index < |frames| && i < |rules|
  {
    if !rules[i].frame.Matches(frames[index]) then best
    else
      match CallerDepth(frames, index, rules[i])
      case None => best
      case Some(depth) =>
        if CrossesHookDispatch(frames, index, depth) || depth <= best.depth then best else Best(Some(i), depth)
  }

  function BestOf(frames: seq<Frame>, index: nat, rules: seq<Rule>, n: nat): (best: Best)
    requires index < |frames| && n <= |rules|
  {
    if n == 0 then Best(None, -1) else Better(frames, index, rules, BestOf(frames, index, rules, n - 1), n - 1)
  }

  /** The position of the rule that classifies `frames[index]`. */
  function Winner(frames: seq<Frame>, index: nat, rules: seq<Rule>): (rule: Option<nat>)
    requires index < |frames|
  {
    BestOf(frames, index, rules, |rules|).rule
  }

  /** `_matching_rule`: the rule loop with its best rule and depth. */
  method MatchingRule(frames: seq<Frame>, index: nat, rules: seq<Rule>) returns (rule: Option<nat>)
    requires index < |frames|
    ensures rule == Winner(frames, index, rules)
  {
    rule := None;
    var bestDepth: int := -1;
    for i := 0 to |rules|
      invariant BestOf(frames, index, rules, i) == Best(rule, bestDepth)
    {
      if !rules[i].frame.Matches(frames[index]) {
        continue;
      }
      var depth := CallerDepth(frames, index, rules[i]);
      if depth.None? {
        continue;
      }
      if CrossesHookDispatch(frames, index, depth.value) {
        continue;
      }
      if depth.value > bestDepth {
        rule, bestDepth := Some(i), depth.value;
      }
    }
  }

  /** The rule at `i` claims the frame by way of the caller at `caller`. */
  predicate Claims(frames: seq<Frame>, index: nat, rules: seq<Rule>, i: nat, caller: nat)
    requires index < |frames| && i < |rules|
  {
    rules[i].frame.Matches(frames[index]) && Reaches(frames, index, rules[i], caller)
  }

  /** A field of a pattern admits a frame's field when it is left out or the same. */
  predicate Admits(field: Option<string>, value: string) { field == None || field == Some(value) }

  predicate AdmitsFrame(pattern: FramePattern, frame: Frame)
  {
    Admits(pattern.name, frame.name) && Admits(pattern.location, frame.location) && Admits(pattern.line, frame.line)
  }

  /** One of the two functions that call observer hooks. */
  predicate IsHookDispatch(frame: Frame)
  {
    || (frame.name == "_emit_event" && frame.location == "cuprum/_pipeline_types.py")
    || (frame.name == "_emit_exec_event" && frame.location == "cuprum/_observability.py")
  }

  /**
   What a claim is: the rule admits the frame, one of its callers admits the caller's frame farther
   out, and no hook dispatch runs between the two.
   */
  lemma ClaimsIff(frames: seq<Frame>, index: nat, rules: seq<Rule>, i: nat, caller: nat)
    requires index < |frames| && i < |rules|
    ensures Claims(frames, index, rules, i, caller) <==>
      && AdmitsFrame(rules[i].frame, frames[index])
      && caller < index
      && (exists p :: p in rules[i].callers && AdmitsFrame(p, frames[caller]))
      && (forall j :: caller < j < index ==> !IsHookDispatch(frames[j]))
  {
    forall frame: Frame
      ensures AnyMatches(HOOK_DISPATCH_BOUNDARY, frame) <==> IsHookDispatch(frame)
    {
      HookDispatchIff(frame);
    }
    if caller < index {
      AnyMatchesIff(rules[i].callers, frames[caller]);
    }
  }

  lemma MatchesIff(pattern: FramePattern, frame: Frame)
    ensures pattern.Matches(frame) <==> AdmitsFrame(pattern, frame)
  {
  }

  lemma AnyMatchesIff(patterns: seq<FramePattern>, frame: Frame)
    ensures AnyMatches(patterns, frame) <==> exists p :: p in patterns && AdmitsFrame(p, frame)
  {
    if AnyMatches(patterns, frame) {
      var i :| 0 <= i < |patterns| && patterns[i].Matches(frame);
      MatchesIff(patterns[i], frame);
      assert patterns[i] in patterns;
    }
    if p :| p in patterns && AdmitsFrame(p, frame) {
      var i :| 0 <= i < |patterns| && patterns[i] == p;
      MatchesIff(patterns[i], frame);
    }
  }

  lemma HookDispatchIff(frame: Frame)
    ensures AnyMatches(HOOK_DISPATCH_BOUNDARY, frame) <==> IsHookDispatch(frame)
  {
    MatchesIff(HOOK_DISPATCH_BOUNDARY[0], frame);
    MatchesIff(HOOK_DISPATCH_BOUNDARY[1], frame);
  }

  /**
   What resolution promises, over every caller of every rule rather than the nearest
   ones: no claim is closer to the frame than the chosen one, and no earlier rule has
   one as close.
   */
  ghost predicate IsDeepestFirst(frames: seq<Frame>, index: nat, rules: seq<Rule>, n: nat, i: nat, depth: nat)
    requires index < |frames| && n <= |rules|
  {
    && i < n && Claims(frames, index, rules, i, depth)
    && (forall k, j :: 0 <= k < n && j >= 0 && Claims(frames, index, rules, k, j) ==> j <= depth)
    && (forall k, j :: 0 <= k < i && j >= 0 && Claims(frames, index, rules, k, j) ==> j < depth)
  }

  /** Testing only the nearest caller loses nothing: what separates it separates every farther one. */
  lemma NearestCallerSuffices(frames: seq<Frame>, index: nat, rule: Rule, caller: nat)
    requires index <= |frames| && Reaches(frames, index, rule, caller)
    ensures
      var nearest := CallerDepth(frames, index, rule);
      nearest.Some? && caller <= nearest.value && Reaches(frames, index, rule, nearest.value)
  {
    var nearest := CallerDepth(frames, index, rule).value;
    assert CrossesHookDispatch(frames, index, nearest) ==> CrossesHookDispatch(frames, index, caller);
  }

  lemma {:induction false} BestOfIsDeepestFirst(frames: seq<Frame>, index: nat, rules: seq<Rule>, n: nat)
    requires index < |frames| && n <= |rules|
    ensures
      var best := BestOf(frames, index, rules, n);
      match best.rule
      case Some(i) => best.depth >= 0 && IsDeepestFirst(frames, index, rules, n, i, best.depth)
      case None => best.depth == -1 && forall k, j :: 0 <= k < n && j >= 0 ==> !Claims(frames, index, rules, k, j)
  {
    if n > 0 {
      var last := n - 1;
      BestOfIsDeepestFirst(frames, index, rules, last);
      forall j: nat | Claims(frames, index, rules, last, j)
        ensures
          var nearest := CallerDepth(frames, index, rules[last]);
          nearest.Some? && j <= nearest.value && Claims(frames, index, rules, last, nearest.value)
      {
        NearestCallerSuffices(frames, index, rules[last], j);
      }
    }
  }

  /** Resolution equals its specification: the first rule with the deepest unseparated caller, or none at all. */
  lemma WinnerIsDeepestFirst(frames: seq<Frame>, index: nat, rules: seq<Rule>)
    requires index < |frames|
    ensures Winner(frames, index, rules).None?
       <==> forall k, j :: 0 <= k < |rules| && j >= 0 ==> !Claims(frames, index, rules, k, j)
    ensures forall i: nat ::
      Winner(frames, index, rules) == Some(i) <==>
        i < |rules| && exists depth: nat :: IsDeepestFirst(frames, index, rules, |rules|, i, depth)
  {
    BestOfIsDeepestFirst(frames, index, rules, |rules|);
    var best := BestOf(frames, index, rules, |rules|);
    forall i: nat, depth: nat | i < |rules| && IsDeepestFirst(frames, index, rules, |rules|, i, depth)
      ensures best.rule == Some(i)
    {
      assert best.rule.Some?;
      assert Claims(frames, index, rules, best.rule.value, best.depth);
    }
  }

  // --------------------------------------------------------------- weighted counts

  predicate InConsumeSubtree(stack: Stack, rules: Rules)
  {
    exists i :: 0 <= i < |stack.frames| && AnyMatches(rules.consumeFrames, stack.frames[i])
  }

  /** One of the first `n` frames is a caller of a rule of this name. */
  predicate CallerSeen(frames: seq<Frame>, rules: seq<Rule>, name: string, n: nat)
    requires n <= |frames|
  {
    exists i, k :: 0 <= i < n && 0 <= k < |rules| && IsCaller(frames[i], rules[k], name)
  }

  predicate IsCaller(frame: Frame, rule: Rule, name: string)
  {
    rule.name == name && AnyMatches(rule.callers, frame)
  }

  /** The weight a rule name gains from the first `n` frames: the stack's samples for each it wins. */
  function WonWeight(stack: Stack, rules: seq<Rule>, name: string, n: nat): (weight: nat)
    requires n <= |stack.frames|
  {
    if n == 0 then 0
    else WonWeight(stack, rules, name, n - 1) + (if WinsAt(stack.frames, rules, name, n - 1) then stack.samples else 0)
  }

  /** A rule of this name wins one of the first `n` frames. */
  predicate WinsSome(frames: seq<Frame>, rules: seq<Rule>, name: string, n: nat)
    requires n <= |frames|
  {
    exists i :: 0 <= i < n && WinsAt(frames, rules, name, i)
  }

  predicate WinsAt(frames: seq<Frame>, rules: seq<Rule>, name: string, index: nat)
    requires index < |frames|
  {
    var winner := Winner(frames, index, rules);
    winner.Some? && winner.value < |rules| && rules[winner.value].name == name
  }

  /** The stack is in the numerator: some frame resolves. */
  predicate Counted(frames: seq<Frame>, rules: seq<Rule>, n: nat)
    requires n <= |frames|
  {
    exists i :: 0 <= i < n && Winner(frames, i, rules).Some?
  }

  function Weight(counts: map<string, nat>, name: string): nat
  {
    if name in counts then counts[name] else 0
  }

  function Plus(counts: map<string, nat>, name: string, n: nat): map<string, nat>
  {
    counts[name := Weight(counts, name) + n]
  }

  /** The counts have grown by `n` for exactly the names seen. */
  ghost predicate Credited(before: map<string, nat>, after: map<string, nat>, seen: set<string>, n: nat)
  {
    && (forall name :: name in after <==> (name in before || name in seen))
    && (forall name :: Weight(after, name) == Weight(before, name) + (if name in seen then n else 0))
  }

  class Accumulator {
    var consumeSamples: nat
    var constructionSamples: nat
    var matchedFrames: map<string, nat>
    var callerSamples: map<string, nat>

    constructor ()
      ensures consumeSamples == constructionSamples == 0 && matchedFrames == callerSamples == map[]
    {
      consumeSamples, constructionSamples, matchedFrames, callerSamples := 0, 0, map[], map[];
    }

    /** `_record_caller_weight`: each rule name gains the stack's weight at most once. */
    method RecordCallerWeight(stack: Stack, rules: seq<Rule>)
      modifies this`callerSamples
      ensures forall name :: name in callerSamples <==>
                (name in old(callerSamples) || CallerSeen(stack.frames, rules, name, |stack.frames|))
      ensures forall name ::
                Weight(callerSamples, name) ==
                  Weight(old(callerSamples), name)
                  + (if CallerSeen(stack.frames, rules, name, |stack.frames|) then stack.samples else 0)
    {
      var seen: set<string> := {};
      for i := 0 to |stack.frames|
        invariant forall name :: name in seen <==> CallerSeen(stack.frames, rules, name, i)
        invariant Credited(old(callerSamples), callerSamples, seen, stack.samples)
      {
        seen := RecordCallersAt(stack.frames[i], stack.samples, rules, seen, old(callerSamples));
      }
    }

    /** The inner loop of `_record_caller_weight`: one frame against every rule not seen yet. */
    method RecordCallersAt(frame: Frame, samples: nat, rules: seq<Rule>, before: set<string>, ghost start: map<string, nat>)
      returns (seen: set<string>)
      requires Credited(start, callerSamples, before, samples)
      modifies this`callerSamples
      ensures Credited(start, callerSamples, seen, samples)
      ensures forall name :: name in seen <==>
                (name in before || exists k :: 0 <= k < |rules| && IsCaller(frame, rules[k], name))
    {
      seen := before;
      for k := 0 to |rules|
        invariant forall name :: name in seen <==>
                    (name in before || exists m :: 0 <= m < k && IsCaller(frame, rules[m], name))
        invariant Credited(start, callerSamples, seen, samples)
      {
        var rule := rules[k];
        assert IsCaller(frame, rule, rule.name) <==> AnyMatches(rule.callers, frame);
        if rule.name !in seen && AnyMatches(rule.callers, frame) {
          seen := seen + {rule.name};
          callerSamples := Plus(callerSamples, rule.name, samples);
        }
      }
    }

    /** `_record_matches`: each frame that resolves gives the stack's weight to its winner. */
    method RecordMatches(stack: Stack, rules: seq<Rule>) returns (counted: bool)
      modifies this`matchedFrames
      ensures counted <==> Counted(stack.frames, rules, |stack.frames|)
      ensures matchedFrames == Matched(old(matchedFrames), stack, rules, |stack.frames|)
    {
      counted := false;
      for index := 0 to |stack.frames|
        invariant counted <==> Counted(stack.frames, rules, index)
        invariant matchedFrames == Matched(old(matchedFrames), stack, rules, index)
      {
        var winner := MatchingRule(stack.frames, index, rules);
        if winner.None? {
          continue;
        }
        WinnerInRange(stack.frames, index, rules);
        matchedFrames := Plus(matchedFrames, rules[winner.value].name, stack.samples);
        counted := true;
      }
    }
  }

  lemma WinnerInRange(frames: seq<Frame>, index: nat, rules: seq<Rule>)
    requires index < |frames| && Winner(frames, index, rules).Some?
    ensures Winner(frames, index, rules).value < |rules|
  {
    BestOfIsDeepestFirst(frames, index, rules, |rules|);
  }

  /** The per-rule counts after the first `n` frames of a stack. */
  function Matched(counts: map<string, nat>, stack: Stack, rules: seq<Rule>, n: nat): (after: map<string, nat>)
    requires n <= |stack.frames|
  {
    if n == 0 then counts
    else
      var before := Matched(counts, stack, rules, n - 1);
      var winner := Winner(stack.frames, n - 1, rules);
      if winner.None? || winner.value >= |rules| then before
      else Plus(before, rules[winner.value].name, stack.samples)
  }

  lemma {:induction false} MatchedWeight(counts: map<string, nat>, stack: Stack, rules: seq<Rule>, n: nat, name: string)
    requires n <= |stack.frames|
    ensures Weight(Matched(counts, stack, rules, n), name) == Weight(counts, name) + WonWeight(stack, rules, name, n)
    ensures name in Matched(counts, stack, rules, n) <==> (name in counts || WinsSome(stack.frames, rules, name, n))
  {
    if n > 0 {
      MatchedWeight(counts, stack, rules, n - 1, name);
      assert WinsSome(stack.frames, rules, name, n) <==>
        (WinsSome(stack.frames, rules, name, n - 1) || WinsAt(stack.frames, rules, name, n - 1));
    }
  }

  /** A winning rule has a caller in the same stack: its name is recorded as called too. */
  lemma WinnersWereCalled(frames: seq<Frame>, rules: seq<Rule>, name: string)
    requires WinsSome(frames, rules, name, |frames|)
    ensures CallerSeen(frames, rules, name, |frames|)
  {
    var index :| 0 <= index < |frames| && WinsAt(frames, rules, name, index);
    WinnerIsDeepestFirst(frames, index, rules);
    var k := Winner(frames, index, rules).value;
    var depth: nat :| IsDeepestFirst(frames, index, rules, |rules|, k, depth);
    assert IsCaller(frames[depth], rules[k], name);
  }

  // --------------------------------------------------------------- whole captures

  function TotalSamples(stacks: seq<Stack>, n: nat): (total: nat)
    requires n <= |stacks|
  {
    if n == 0 then 0 else TotalSamples(stacks, n - 1) + stacks[n - 1].samples
  }

  function ConsumeSamples(stacks: seq<Stack>, rules: Rules, n: nat): (total: nat)
    requires n <= |stacks|
  {
    if n == 0 then 0
    else ConsumeSamples(stacks, rules, n - 1) + (if InConsumeSubtree(stacks[n - 1], rules) then stacks[n - 1].samples else 0)
  }

  /** A consume stack with a resolving frame counts once, however many of its frames resolve. */
  function ConstructionSamples(stacks: seq<Stack>, rules: Rules, n: nat): (total: nat)
    requires n <= |stacks|
  {
    if n == 0 then 0
    else
      var stack := stacks[n - 1];
      ConstructionSamples(stacks, rules, n - 1)
      + (if InConsumeSubtree(stack, rules) && Counted(stack.frames, rules.construction, |stack.frames|)
         then stack.samples else 0)
  }

  /** The weight a rule name carries over a whole capture. */
  function MatchedSamples(stacks: seq<Stack>, rules: Rules, name: string, n: nat): (total: nat)
    requires n <= |stacks|
  {
    if n == 0 then 0
    else
      var stack := stacks[n - 1];
      MatchedSamples(stacks, rules, name, n - 1)
      + (if InConsumeSubtree(stack, rules) then WonWeight(stack, rules.construction, name, |stack.frames|) else 0)
  }

  /** The weight of the consume stacks that hold a caller of a rule name. */
  function CalledSamples(stacks: seq<Stack>, rules: Rules, name: string, n: nat): (total: nat)
    requires n <= |stacks|
  {
    if n == 0 then 0
    else
      var stack := stacks[n - 1];
      CalledSamples(stacks, rules, name, n - 1)
      + (if InConsumeSubtree(stack, rules) && CallerSeen(stack.frames, rules.construction, name, |stack.frames|)
         then stack.samples else 0)
  }

  // ------------------------------------------------------ what the four counts are

  function Scaled(a: int, d: nat): int { a * d }

  /** Some frame of the stack is one of the consume frames. */
  ghost predicate RunsConsume(stack: Stack, rules: Rules)
  {
    exists frame, p :: frame in stack.frames && p in rules.consumeFrames && AdmitsFrame(p, frame)
  }

  /** Some frame of the stack is a caller of a rule of this name. */
  ghost predicate RunsCaller(frames: seq<Frame>, rules: seq<Rule>, name: string)
  {
    exists frame, rule, p ::
      frame in frames && rule in rules && rule.name == name && p in rule.callers && AdmitsFrame(p, frame)
  }

  /** Some rule claims the frame by way of some caller. */
  ghost predicate Claimed(frames: seq<Frame>, index: nat, rules: seq<Rule>)
    requires index < |frames|
  {
    exists k, caller :: 0 <= k < |rules| && caller >= 0 && Claims(frames, index, rules, k, caller)
  }

  ghost predicate SomeClaim(frames: seq<Frame>, rules: seq<Rule>)
  {
    exists index :: 0 <= index < |frames| && Claimed(frames, index, rules)
  }

  lemma RunsConsumeIff(stack: Stack, rules: Rules)
    ensures InConsumeSubtree(stack, rules) <==> RunsConsume(stack, rules)
  {
    forall i | 0 <= i < |stack.frames|
      ensures AnyMatches(rules.consumeFrames, stack.frames[i]) <==>
                exists p :: p in rules.consumeFrames && AdmitsFrame(p, stack.frames[i])
    {
      AnyMatchesIff(rules.consumeFrames, stack.frames[i]);
    }
  }

  lemma RunsCallerIff(frames: seq<Frame>, rules: seq<Rule>, name: string)
    ensures CallerSeen(frames, rules, name, |frames|) <==> RunsCaller(frames, rules, name)
  {
    forall i, k | 0 <= i < |frames| && 0 <= k < |rules|
      ensures AnyMatches(rules[k].callers, frames[i]) <==>
                exists p :: p in rules[k].callers && AdmitsFrame(p, frames[i])
    {
      AnyMatchesIff(rules[k].callers, frames[i]);
    }
    if RunsCaller(frames, rules, name) {
      var frame, rule, p :|
        frame in frames && rule in rules && rule.name == name && p in rule.callers && AdmitsFrame(p, frame);
      var i :| 0 <= i < |frames| && frames[i] == frame;
      var k :| 0 <= k < |rules| && rules[k] == rule;
      assert IsCaller(frames[i], rules[k], name);
    }
  }

  lemma ClaimedIff(frames: seq<Frame>, index: nat, rules: seq<Rule>)
    requires index < |frames|
    ensures Winner(frames, index, rules).Some? <==> Claimed(frames, index, rules)
  {
    WinnerIsDeepestFirst(frames, index, rules);
  }

  lemma SomeClaimIff(frames: seq<Frame>, rules: seq<Rule>)
    ensures Counted(frames, rules, |frames|) <==> SomeClaim(frames, rules)
  {
    forall index | 0 <= index < |frames|
      ensures Winner(frames, index, rules).Some? <==> Claimed(frames, index, rules)
    {
      ClaimedIff(frames, index, rules);
    }
  }

  /** Those of the first `n` frames that a rule of this name wins. */
  ghost function FramesWon(frames: seq<Frame>, rules: seq<Rule>, name: string, n: nat): set<nat>
    requires n <= |frames|
  {
    set index: nat | index < n && WinsAt(frames, rules, name, index)
  }

  lemma OneMoreFrame(frames: seq<Frame>, rules: seq<Rule>, name: string, n: nat)
    requires n < |frames|
    ensures |FramesWon(frames, rules, name, n + 1)|
         == |FramesWon(frames, rules, name, n)| + (if WinsAt(frames, rules, name, n) then 1 else 0)
  {
    var before := FramesWon(frames, rules, name, n);
    assert FramesWon(frames, rules, name, n + 1) == if WinsAt(frames, rules, name, n) then before + {n} else before;
  }

  lemma {:induction false} WonPerFrame(stack: Stack, rules: seq<Rule>, name: string, n: nat)
    requires n <= |stack.frames|
    ensures WonWeight(stack, rules, name, n) == Scaled(|FramesWon(stack.frames, rules, name, n)|, stack.samples)
  {
    if n == 0 {
      assert FramesWon(stack.frames, rules, name, 0) == {};
    } else {
      WonPerFrame(stack, rules, name, n - 1);
      OneMoreFrame(stack.frames, rules, name, n - 1);
      ScaledNext(|FramesWon(stack.frames, rules, name, n - 1)|, stack.samples);
    }
  }

  lemma ScaledNext(a: int, d: nat)
    ensures Scaled(a + 1, d) == Scaled(a, d) + d && Scaled(0, d) == 0
  {
  }

  /**
   What one stack is worth: its samples in the denominator when it runs a consume frame; then
   once in the numerator when any rule claims any of its frames, once for each frame a rule
   name wins, and once for a rule name whose callers it runs.
   */
  lemma OneStackCounts(stack: Stack, rules: Rules, name: string)
    ensures ConsumeSamples([stack], rules, 1) == if RunsConsume(stack, rules) then stack.samples else 0
    ensures ConstructionSamples([stack], rules, 1)
         == if RunsConsume(stack, rules) && SomeClaim(stack.frames, rules.construction) then stack.samples else 0
    ensures MatchedSamples([stack], rules, name, 1)
         == if RunsConsume(stack, rules)
            then Scaled(|FramesWon(stack.frames, rules.construction, name, |stack.frames|)|, stack.samples) else 0
    ensures CalledSamples([stack], rules, name, 1)
         == if RunsConsume(stack, rules) && RunsCaller(stack.frames, rules.construction, name) then stack.samples else 0
  {
    RunsConsumeIff(stack, rules);
    SomeClaimIff(stack.frames, rules.construction);
    WonPerFrame(stack, rules.construction, name, |stack.frames|);
    RunsCallerIff(stack.frames, rules.construction, name);
    assert ConsumeSamples([stack], rules, 0) == 0 && ConstructionSamples([stack], rules, 0) == 0;
    assert MatchedSamples([stack], rules, name, 0) == 0 && CalledSamples([stack], rules, name, 0) == 0;
  }

  lemma {:induction false} PrefixCounts(a: seq<Stack>, b: seq<Stack>, rules: Rules, name: string, n: nat)
    requires n <= |a|
    ensures ConsumeSamples(a + b, rules, n) == ConsumeSamples(a, rules, n)
    ensures ConstructionSamples(a + b, rules, n) == ConstructionSamples(a, rules, n)
    ensures MatchedSamples(a + b, rules, name, n) == MatchedSamples(a, rules, name, n)
    ensures CalledSamples(a + b, rules, name, n) == CalledSamples(a, rules, name, n)
  {
    if n > 0 {
      PrefixCounts(a, b, rules, name, n - 1);
      assert (a + b)[n - 1] == a[n - 1];
    }
  }

  /**
   All four counts of two captures taken together are the sums of their counts, so each is a sum over
   stacks in any order.
   */
  lemma {:induction false} CountsAdd(a: seq<Stack>, b: seq<Stack>, rules: Rules, name: string, n: nat)
    requires n <= |b|
    ensures ConsumeSamples(a + b, rules, |a| + n) == ConsumeSamples(a, rules, |a|) + ConsumeSamples(b, rules, n)
    ensures ConstructionSamples(a + b, rules, |a| + n)
         == ConstructionSamples(a, rules, |a|) + ConstructionSamples(b, rules, n)
    ensures MatchedSamples(a + b, rules, name, |a| + n)
         == MatchedSamples(a, rules, name, |a|) + MatchedSamples(b, rules, name, n)
    ensures CalledSamples(a + b, rules, name, |a| + n)
         == CalledSamples(a, rules, name, |a|) + CalledSamples(b, rules, name, n)
  {
    if n == 0 {
      PrefixCounts(a, b, rules, name, |a|);
    } else {
      CountsAdd(a, b, rules, name, n - 1);
      assert (a + b)[|a| + n - 1] == b[n - 1];
    }
  }

  predicate MatchedAnywhere(stacks: seq<Stack>, rules: Rules, name: string, n: nat)
    requires n <= |stacks|
  {
    exists i :: 0 <= i < n && MatchedIn(stacks[i], rules, name)
  }

  predicate MatchedIn(stack: Stack, rules: Rules, name: string)
  {
    InConsumeSubtree(stack, rules) && WinsSome(stack.frames, rules.construction, name, |stack.frames|)
  }

  predicate CalledAnywhere(stacks: seq<Stack>, rules: Rules, name: string, n: nat)
    requires n <= |stacks|
  {
    exists i :: 0 <= i < n && CalledIn(stacks[i], rules, name)
  }

  predicate CalledIn(stack: Stack, rules: Rules, name: string)
  {
    InConsumeSubtree(stack, rules) && CallerSeen(stack.frames, rules.construction, name, |stack.frames|)
  }

  /** What an accumulator must hold after the first `n` stacks. */
  ghost predicate Accumulated(a: Accumulator, stacks: seq<Stack>, rules: Rules, n: nat)
    requires n <= |stacks|
    reads a
  {
    && a.consumeSamples == ConsumeSamples(stacks, rules, n)
    && a.constructionSamples == ConstructionSamples(stacks, rules, n)
    && (forall name :: name in a.matchedFrames <==> MatchedAnywhere(stacks, rules, name, n))
    && (forall name :: Weight(a.matchedFrames, name) == MatchedSamples(stacks, rules, name, n))
    && (forall name :: name in a.callerSamples <==> CalledAnywhere(stacks, rules, name, n))
    && (forall name :: Weight(a.callerSamples, name) == CalledSamples(stacks, rules, name, n))
  }

  lemma AnywhereGrows(stacks: seq<Stack>, rules: Rules, name: string, n: nat)
    requires n < |stacks|
    ensures MatchedAnywhere(stacks, rules, name, n + 1) <==>
              (MatchedAnywhere(stacks, rules, name, n) || MatchedIn(stacks[n], rules, name))
    ensures CalledAnywhere(stacks, rules, name, n + 1) <==>
              (CalledAnywhere(stacks, rules, name, n) || CalledIn(stacks[n], rules, name))
  {
  }

  /** One consume stack's part of `classify_capture`. */
  method AddStack(a: Accumulator, stack: Stack, rules: Rules)
    requires InConsumeSubtree(stack, rules)
    modifies a
    ensures a.consumeSamples == old(a.consumeSamples) + stack.samples
    ensures a.constructionSamples ==
              old(a.constructionSamples)
              + (if Counted(stack.frames, rules.construction, |stack.frames|) then stack.samples else 0)
    ensures forall name :: name in a.matchedFrames <==> (name in old(a.matchedFrames) || MatchedIn(stack, rules, name))
    ensures forall name ::
              Weight(a.matchedFrames, name) ==
                Weight(old(a.matchedFrames), name) + WonWeight(stack, rules.construction, name, |stack.frames|)
    ensures forall name :: name in a.callerSamples <==> (name in old(a.callerSamples) || CalledIn(stack, rules, name))
    ensures forall name ::
              Weight(a.callerSamples, name) ==
                Weight(old(a.callerSamples), name) + (if CalledIn(stack, rules, name) then stack.samples else 0)
  {
    forall name
      ensures Weight(Matched(a.matchedFrames, stack, rules.construction, |stack.frames|), name)
           == Weight(a.matchedFrames, name) + WonWeight(stack, rules.construction, name, |stack.frames|)
      ensures name in Matched(a.matchedFrames, stack, rules.construction, |stack.frames|) <==>
                (name in a.matchedFrames || MatchedIn(stack, rules, name))
    {
      MatchedWeight(a.matchedFrames, stack, rules.construction, |stack.frames|, name);
    }
    a.consumeSamples := a.consumeSamples + stack.samples;
    a.RecordCallerWeight(stack, rules.construction);
    var counted := a.RecordMatches(stack, rules.construction);
    if counted {
      a.constructionSamples := a.constructionSamples + stack.samples;
    }
  }

  /** The step from `n` stacks to `n + 1`. */
  method ClassifyStack(a: Accumulator, stacks: seq<Stack>, rules: Rules, n: nat)
    requires n < |stacks| && Accumulated(a, stacks, rules, n)
    modifies a
    ensures Accumulated(a, stacks, rules, n + 1)
  {
    forall name
      ensures MatchedAnywhere(stacks, rules, name, n + 1) <==>
                (MatchedAnywhere(stacks, rules, name, n) || MatchedIn(stacks[n], rules, name))
      ensures CalledAnywhere(stacks, rules, name, n + 1) <==>
                (CalledAnywhere(stacks, rules, name, n) || CalledIn(stacks[n], rules, name))
    {
      AnywhereGrows(stacks, rules, name, n);
    }
    if InConsumeSubtree(stacks[n], rules) {
      AddStack(a, stacks[n], rules);
    }
  }

  /** `classify_capture`: every stack, in order. */
  method ClassifyCapture(stacks: seq<Stack>, rules: Rules) returns (a: Accumulator)
    ensures fresh(a) && Accumulated(a, stacks, rules, |stacks|)
  {
    a := new Accumulator();
    for n := 0 to |stacks|
      invariant Accumulated(a, stacks, rules, n)
    {
      ClassifyStack(a, stacks, rules, n);
    }
  }

  /** The numerator is part of the denominator, which is part of the parent's samples. */
  lemma {:induction false} CountsNest(stacks: seq<Stack>, rules: Rules, n: nat)
    requires n <= |stacks|
    ensures ConstructionSamples(stacks, rules, n) <= ConsumeSamples(stacks, rules, n) <= TotalSamples(stacks, n)
  {
    if n > 0 {
      CountsNest(stacks, rules, n - 1);
    }
  }

  /**
   Every matched rule name was also called: drift is never judged on a name that matched nothing it
   was called for.
   */
  lemma MatchedNamesWereCalled(stacks: seq<Stack>, rules: Rules, name: string)
    requires MatchedAnywhere(stacks, rules, name, |stacks|)
    ensures CalledAnywhere(stacks, rules, name, |stacks|)
  {
    var i :| 0 <= i < |stacks| && MatchedIn(stacks[i], rules, name);
    WinnersWereCalled(stacks[i].frames, rules.construction, name);
    assert CalledIn(stacks[i], rules, name);
  }

  predicate CountedIn(stack: Stack, rules: Rules)
  {
    InConsumeSubtree(stack, rules) && Counted(stack.frames, rules.construction, |stack.frames|)
  }

  lemma {:induction false} NumeratorIffCounted(stacks: seq<Stack>, rules: Rules, n: nat)
    requires n <= |stacks| && forall i :: 0 <= i < |stacks| ==> stacks[i].samples > 0
    ensures ConstructionSamples(stacks, rules, n) > 0 <==> exists i :: 0 <= i < n && CountedIn(stacks[i], rules)
  {
    if n > 0 {
      NumeratorIffCounted(stacks, rules, n - 1);
      assert CountedIn(stacks[n - 1], rules) || !CountedIn(stacks[n - 1], rules);
    }
  }

  /** A stack is in the numerator exactly when it gives some rule name a match. */
  lemma CountedIffMatched(stack: Stack, rules: Rules)
    ensures CountedIn(stack, rules) <==> exists name :: MatchedIn(stack, rules, name)
  {
    if CountedIn(stack, rules) {
      var i :| 0 <= i < |stack.frames| && Winner(stack.frames, i, rules.construction).Some?;
      WinnerInRange(stack.frames, i, rules.construction);
      var name := rules.construction[Winner(stack.frames, i, rules.construction).value].name;
      assert WinsAt(stack.frames, rules.construction, name, i);
      assert MatchedIn(stack, rules, name);
    }
  }

  /** The numerator is empty exactly when nothing matched, for stacks that carry samples. */
  lemma NumeratorIffMatched(stacks: seq<Stack>, rules: Rules)
    requires forall i :: 0 <= i < |stacks| ==> stacks[i].samples > 0
    ensures ConstructionSamples(stacks, rules, |stacks|) > 0 <==>
              exists name :: MatchedAnywhere(stacks, rules, name, |stacks|)
  {
    NumeratorIffCounted(stacks, rules, |stacks|);
    forall i | 0 <= i < |stacks|
      ensures CountedIn(stacks[i], rules) <==> exists name :: MatchedIn(stacks[i], rules, name)
    {
      CountedIffMatched(stacks[i], rules);
    }
    if i :| 0 <= i < |stacks| && CountedIn(stacks[i], rules) {
      var name :| MatchedIn(stacks[i], rules, name);
      assert MatchedAnywhere(stacks, rules, name, |stacks|);
    }
  }

  // ----------------------------------------------------------------------- status

  datatype Status = NoConsumeSamples | DriftedRules | NoMatchedFrames | Pass | FailAboveLimit

  const CONSTRUCTION_SHARE_LIMIT_PERCENT := 30

  /** A share is rounded to this many parts of one percent. */
  const PERCENT_PARTS := 10_000

  /** `n / d` rounded to the nearest integer, a half going to the even one. */
  function RoundHalfEven(n: nat, d: nat): (q: nat)
    requires d > 0
  {
    var q, r := n / d, n % d;
    if 2 * r < d || (2 * r == d && q % 2 == 0) then q else q + 1
  }

  /** `_percent`: a share in parts of a percent, rounded; nothing of nothing is no share. */
  function RoundedShare(numerator: nat, denominator: nat): (parts: nat)
  {
    if denominator == 0 then 0 else RoundHalfEven(numerator * 100 * PERCENT_PARTS, denominator)
  }

  lemma ScaledOrder(a: int, b: int, d: nat)
    ensures a < b ==> Scaled(a, d) + d <= Scaled(b, d)
  {
    if a < b {
      assert Scaled(b, d) == Scaled(a, d) + Scaled(b - a, d);
      assert Scaled(b - a, d) >= d by { assert (b - a) * d == (b - a - 1) * d + d; }
    }
  }

  /** Rounding meets an even bound exactly up to half a part above it. */
  lemma RoundsWithin(n: nat, d: nat, k: nat)
    requires d > 0 && k % 2 == 0
    ensures RoundHalfEven(n, d) <= k <==> 2 * n <= Scaled(2 * k + 1, d)
  {
    var q, r := n / d, n % d;
    assert n == Scaled(q, d) + r;
    assert Scaled(2 * k + 1, d) == 2 * Scaled(k, d) + d;
    ScaledOrder(q, k, d);
    ScaledOrder(k, q, d);
  }

  /** The rounded share meets the limit exactly up to 30.00005 percent. */
  lemma ShareWithinLimit(construction: nat, consume: nat)
    requires consume > 0
    ensures RoundedShare(construction, consume) <= CONSTRUCTION_SHARE_LIMIT_PERCENT * PERCENT_PARTS
       <==> construction * 2_000_000 <= 600_001 * consume
  {
    RoundsWithin(construction * 100 * PERCENT_PARTS, consume, CONSTRUCTION_SHARE_LIMIT_PERCENT * PERCENT_PARTS);
  }

  /** `_drifted_rules`: the names called without any match, with their callers' weight. */
  function Drifted(matched: map<string, nat>, called: map<string, nat>): (drifted: map<string, nat>)
  {
    map name | name in called && name !in matched :: called[name]
  }

  /** `_status`: the most specific failure first. */
  function StatusOf(consume: nat, construction: nat, matched: map<string, nat>, called: map<string, nat>): (status: Status)
  {
    if consume == 0 then NoConsumeSamples
    else if Drifted(matched, called) != map[] then DriftedRules
    else if matched == map[] then NoMatchedFrames
    else if RoundedShare(construction, consume) <= CONSTRUCTION_SHARE_LIMIT_PERCENT * PERCENT_PARTS then Pass
    else FailAboveLimit
  }

  /** Some rule's callers ran in the consume subtree, and nothing it names was ever under them. */
  ghost predicate SomeRuleDrifted(stacks: seq<Stack>, rules: Rules)
  {
    exists name :: CalledAnywhere(stacks, rules, name, |stacks|) && !MatchedAnywhere(stacks, rules, name, |stacks|)
  }

  ghost predicate SomethingMatched(stacks: seq<Stack>, rules: Rules)
  {
    exists name :: MatchedAnywhere(stacks, rules, name, |stacks|)
  }

  /** Construction is at most 30.00005 percent of consume: what rounding to four decimals makes of 30. */
  ghost predicate WithinLimit(stacks: seq<Stack>, rules: Rules)
  {
    ConstructionSamples(stacks, rules, |stacks|) * 2_000_000 <= 600_001 * ConsumeSamples(stacks, rules, |stacks|)
  }

  /** The gate, for every capture: when each of the five statuses is reported. */
  method Summarize(stacks: seq<Stack>, rules: Rules) returns (status: Status)
    ensures status.NoConsumeSamples? <==> ConsumeSamples(stacks, rules, |stacks|) == 0
    ensures status.DriftedRules? <==>
      ConsumeSamples(stacks, rules, |stacks|) > 0 && SomeRuleDrifted(stacks, rules)
    ensures status.NoMatchedFrames? <==>
      && ConsumeSamples(stacks, rules, |stacks|) > 0
      && !SomeRuleDrifted(stacks, rules) && !SomethingMatched(stacks, rules)
    ensures status.Pass? <==>
      && ConsumeSamples(stacks, rules, |stacks|) > 0
      && !SomeRuleDrifted(stacks, rules) && SomethingMatched(stacks, rules) && WithinLimit(stacks, rules)
    ensures status.FailAboveLimit? <==>
      && ConsumeSamples(stacks, rules, |stacks|) > 0
      && !SomeRuleDrifted(stacks, rules) && SomethingMatched(stacks, rules) && !WithinLimit(stacks, rules)
  {
    var a := ClassifyCapture(stacks, rules);
    status := StatusOf(a.consumeSamples, a.constructionSamples, a.matchedFrames, a.callerSamples);
    NoDriftIff(a.matchedFrames, a.callerSamples);
    assert a.matchedFrames != map[] <==> exists name :: name in a.matchedFrames;
    if a.consumeSamples > 0 {
      ShareWithinLimit(a.constructionSamples, a.consumeSamples);
    }
  }

  /** A capture that passes called exactly the rules it matched. */
  lemma PassedRulesWereCalled(stacks: seq<Stack>, rules: Rules, name: string)
    requires !SomeRuleDrifted(stacks, rules)
    ensures CalledAnywhere(stacks, rules, name, |stacks|) <==> MatchedAnywhere(stacks, rules, name, |stacks|)
  {
    if MatchedAnywhere(stacks, rules, name, |stacks|) {
      MatchedNamesWereCalled(stacks, rules, name);
    }
  }

  lemma NoDriftIff(matched: map<string, nat>, called: map<string, nat>)
    ensures Drifted(matched, called) == map[] <==> forall name :: name in called ==> name in matched
  {
    var drifted := Drifted(matched, called);
    assert forall name :: name in called && name !in matched ==> name in drifted;
    if forall name :: name in called ==> name in matched {
      assert drifted.Keys == {};
    }
  }
}
