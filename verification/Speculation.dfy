/**
 What both speculative controllers share: the target model as a function of the tokens it has
 consumed, plain greedy decoding, and why an accepted block is a piece of it.
 */
module Speculation {
  import opened Common

  type Token = nat
  type Hidden = seq<real>

  const DRAFT_TOKENS: nat := 7
  const VERIFY_WIDTH: nat := 8
  const VOCAB: nat := 248320

  datatype Status = Ok | InvalidArgument | NotImplemented | Runtime | Cuda | Budget

  /** Greedy token, last hidden state and feature taps after consuming a non-empty prefix. */
  datatype Target = Target(next: seq<Token> -> Token, hidden: seq<Token> -> Hidden, tap: seq<Token> -> Hidden)

  /** One-token greedy decoding of `n` tokens. */
  function Greedy(lm: Target, consumed: seq<Token>, n: nat): (r: seq<Token>)
    ensures |r| == n
    decreases n
  {
    if n == 0 then []
    else
      var t := lm.next(consumed);
      [t] + Greedy(lm, consumed + [t], n - 1)
  }

  /** Decoding on from where decoding stopped is decoding longer. */
  lemma {:induction false} GreedyChains(lm: Target, consumed: seq<Token>, m: nat, n: nat)
    ensures Greedy(lm, consumed, m + n) ==
            Greedy(lm, consumed, m) + Greedy(lm, consumed + Greedy(lm, consumed, m), n)
    decreases m
  {
    if m == 0 {
      assert consumed + Greedy(lm, consumed, 0) == consumed;
    } else {
      var t := lm.next(consumed);
      GreedyChains(lm, consumed + [t], m - 1, n);
      assert consumed + ([t] + Greedy(lm, consumed + [t], m - 1)) ==
             (consumed + [t]) + Greedy(lm, consumed + [t], m - 1);
    }
  }

  // --------------------------------------------------------------- verification

  /** What a function of the prefix says at every position of a verified block. */
  function Rows<T>(f: seq<Token> -> T, history: seq<Token>, inputs: seq<Token>): (r: seq<T>)
    ensures |r| == |inputs| && forall i :: 0 <= i < |inputs| ==> r[i] == f(history + inputs[..i + 1])
  {
    seq(|inputs|, i requires 0 <= i < |inputs| => f(history + inputs[..i + 1]))
  }

  /** Rows of consecutive blocks are the rows of the joined block. */
  lemma RowsJoin<T>(f: seq<Token> -> T, history: seq<Token>, a: seq<Token>, b: seq<Token>)
    ensures Rows(f, history, a + b) == Rows(f, history, a) + Rows(f, history + a, b)
  {
    forall i | 0 <= i < |a + b|
      ensures Rows(f, history, a + b)[i] == (Rows(f, history, a) + Rows(f, history + a, b))[i]
    {
      if i < |a| {
        assert (a + b)[..i + 1] == a[..i + 1];
      } else {
        assert history + (a + b)[..i + 1] == (history + a) + b[..i - |a| + 1];
      }
    }
  }

  /** A block's first rows do not depend on the tokens after them. */
  lemma RowsPrefix<T>(f: seq<Token> -> T, history: seq<Token>, inputs: seq<Token>, n: nat)
    requires n <= |inputs|
    ensures Rows(f, history, inputs)[..n] == Rows(f, history, inputs[..n])
  {
    forall i | 0 <= i < n ensures Rows(f, history, inputs)[..n][i] == Rows(f, history, inputs[..n])[i] {
      assert inputs[..n][..i + 1] == inputs[..i + 1];
    }
  }

  /** Length of the common prefix. */
  function LongestPrefix(draft: seq<Token>, target: seq<Token>): (n: nat)
    ensures n <= |draft| && n <= |target|
  {
    if draft == [] || target == [] || draft[0] != target[0] then 0
    else 1 + LongestPrefix(draft[1..], target[1..])
  }

  /** `n` is the longest matching prefix exactly when all before it match and it does not. */
  lemma {:induction false} LongestPrefixIff(draft: seq<Token>, target: seq<Token>, n: nat)
    requires n <= |draft| <= |target|
    ensures n == LongestPrefix(draft, target) <==>
            (forall i :: 0 <= i < n ==> draft[i] == target[i]) && (n < |draft| ==> draft[n] != target[n])
  {
    if draft != [] {
      if draft[0] != target[0] {
      } else if n > 0 {
        LongestPrefixIff(draft[1..], target[1..], n - 1);
        assert forall i :: 0 < i < n ==> draft[i] == draft[1..][i - 1] && target[i] == target[1..][i - 1];
        assert forall i :: 0 <= i < n - 1 ==> draft[1..][i] == draft[i + 1] && target[1..][i] == target[i + 1];
      }
    }
  }

  /** longest_prefix of src/axiom_qwen38_speculative.cpp. */
  method FindLongestPrefix(draft: seq<Token>, target: seq<Token>) returns (prefix: nat)
    requires |draft| <= |target|
    ensures prefix == LongestPrefix(draft, target)
  {
    prefix := 0;
    while prefix < |draft| && draft[prefix] == target[prefix]
      invariant prefix <= |draft|
      invariant forall i :: 0 <= i < prefix ==> draft[i] == target[i]
    {
      prefix := prefix + 1;
    }
    LongestPrefixIff(draft, target, prefix);
  }

  /** Drafts that agree with the target are greedy tokens. */
  lemma {:induction false} AgreedDraftsAreGreedy(lm: Target, consumed: seq<Token>, draft: seq<Token>, n: nat)
    requires n <= |draft|
    requires forall i :: 0 <= i < n ==> draft[i] == lm.next(consumed + draft[..i])
    ensures draft[..n] == Greedy(lm, consumed, n)
  {
    if n > 0 {
      AgreedDraftsAreGreedy(lm, consumed, draft, n - 1);
      GreedyChains(lm, consumed, n - 1, 1);
      assert Greedy(lm, consumed + draft[..n - 1], 1) == [lm.next(consumed + draft[..n - 1])];
      assert draft[..n] == draft[..n - 1] + [draft[n - 1]];
    }
  }

  /** The tokens a step emits: the accepted drafts and the target's own next token. */
  function Emitted(draft: seq<Token>, target: seq<Token>, accepted: nat): seq<Token>
    requires accepted <= |draft| && accepted < |target|
  {
    draft[..accepted] + [target[accepted]]
  }

  /** One block is lossless: for any drafts, what is emitted is what greedy decoding emits. */
  lemma EmittedIsGreedy(lm: Target, history: seq<Token>, anchor: Token, draft: seq<Token>)
    ensures var target := Rows(lm.next, history, [anchor] + draft);
            var n := LongestPrefix(draft, target);
            Emitted(draft, target, n) == Greedy(lm, history + [anchor], n + 1)
  {
    var inputs := [anchor] + draft;
    var target := Rows(lm.next, history, inputs);
    var n := LongestPrefix(draft, target);
    var consumed := history + [anchor];
    LongestPrefixIff(draft, target, n);
    forall i | 0 <= i <= n ensures target[i] == lm.next(consumed + draft[..i]) {
      assert history + inputs[..i + 1] == consumed + draft[..i];
    }
    AgreedDraftsAreGreedy(lm, consumed, draft, n);
    GreedyChains(lm, consumed, n, 1);
    assert Greedy(lm, consumed + draft[..n], 1) == [lm.next(consumed + draft[..n])];
  }

  // ----------------------------------------------------------------- a step's result

  datatype StepResult = StepResult(accepted: nat, emitted: seq<Token>, continuation: Token, before: nat, after: nat)

  function ResultOf(before: nat, drafts: seq<Token>, ids: seq<Token>, prefix: nat): StepResult
    requires prefix <= |drafts| && prefix < |ids|
  {
    var emitted := Emitted(drafts, ids, prefix);
    StepResult(prefix, emitted, emitted[prefix], before, before + 1 + prefix)
  }

  /** What a successful step did to the target's history. */
  ghost predicate Stepped(lm: Target, history: seq<Token>, history': seq<Token>, anchor: Token, r: StepResult) {
    && r.accepted <= DRAFT_TOKENS
    && r.emitted == Greedy(lm, history + [anchor], r.accepted + 1)
    && r.continuation == r.emitted[r.accepted]
    && history' == history + [anchor] + r.emitted[..r.accepted]
    && r.before == |history| && r.after == |history'| == r.before + 1 + r.accepted
  }

  lemma BlockEmits(lm: Target, history: seq<Token>, anchor: Token, drafts: seq<Token>, ids: seq<Token>, prefix: nat)
    requires ids == Rows(lm.next, history, [anchor] + drafts) && prefix == LongestPrefix(drafts, ids)
    ensures prefix <= |drafts| && prefix < |ids|
    ensures Emitted(drafts, ids, prefix) == Greedy(lm, history + [anchor], prefix + 1)
    ensures history + ([anchor] + drafts)[..1 + prefix] == history + [anchor] + Emitted(drafts, ids, prefix)[..prefix]
  {
    EmittedIsGreedy(lm, history, anchor, drafts);
    assert ([anchor] + drafts)[..1 + prefix] == [anchor] + drafts[..prefix];
    assert Emitted(drafts, ids, prefix)[..prefix] == drafts[..prefix];
  }

  /** Committing the anchor and the accepted drafts is a step of greedy decoding. */
  lemma BlockSteps(lm: Target, history: seq<Token>, anchor: Token, drafts: seq<Token>, ids: seq<Token>, prefix: nat)
    requires |drafts| == DRAFT_TOKENS
    requires ids == Rows(lm.next, history, [anchor] + drafts) && prefix == LongestPrefix(drafts, ids)
    ensures Stepped(lm, history, history + ([anchor] + drafts)[..1 + prefix], anchor, ResultOf(|history|, drafts, ids, prefix))
  {
    BlockEmits(lm, history, anchor, drafts, ids, prefix);
  }

  /** Where one step leaves the history and the anchor, the next one takes up the greedy run. */
  lemma ChainStep(lm: Target, start: seq<Token>, emitted: seq<Token>, history: seq<Token>, anchor: Token, block: seq<Token>)
    requires emitted == Greedy(lm, start, |emitted|) && start + emitted == history + [anchor]
    requires block == Greedy(lm, history + [anchor], |block|)
    ensures emitted + block == Greedy(lm, start, |emitted + block|)
    ensures |block| > 0 ==>
              start + (emitted + block) == (history + [anchor] + block[..|block| - 1]) + [block[|block| - 1]]
  {
    GreedyChains(lm, start, |emitted|, |block|);
    if |block| > 0 {
      assert block == block[..|block| - 1] + [block[|block| - 1]];
      assert start + (emitted + block) == (start + emitted) + block;
    }
  }

  /** Every greedy token is one of the vocabulary. */
  ghost predicate Worded(lm: Target) {
    forall s :: lm.next(s) < VOCAB
  }

  lemma {:induction false} GreedyWorded(lm: Target, consumed: seq<Token>, n: nat, i: nat)
    requires Worded(lm) && i < n
    ensures Greedy(lm, consumed, n)[i] < VOCAB
    decreases n
  {
    if i > 0 { GreedyWorded(lm, consumed + [lm.next(consumed)], n - 1, i - 1); }
  }

  lemma ContinuationWorded(lm: Target, history: seq<Token>, history': seq<Token>, anchor: Token, r: StepResult)
    requires Stepped(lm, history, history', anchor, r)
    ensures Worded(lm) ==> r.continuation < VOCAB
  {
    if Worded(lm) { GreedyWorded(lm, history + [anchor], r.accepted + 1, r.accepted); }
  }

  // --------------------------------------------------------------- the target back end

  /** The target: tokens consumed for good, and the inputs staged by an open transaction. */
  datatype TargetState = TargetState(committed: seq<Token>, staged: Option<seq<Token>>)

  /** The target model by contract: any call may fail; a failed commit or abort leaves the state unknown. */
  class TargetModel {
    const lm: Target
    var state: TargetState
    /** Some call has failed. */
    ghost var faulted: bool

    constructor (lm: Target, state: TargetState)
      ensures this.lm == lm && this.state == state && !faulted
    {
      this.lm, this.state, faulted := lm, state, false;
    }

    method Begin() returns (rc: Status)
      requires state.staged.None?
      modifies this
      ensures faulted == (old(faulted) || rc != Ok)
      ensures state == old(state).(staged := if rc == Ok then Some([]) else None)
    {
      rc := *;
      faulted := faulted || rc != Ok;
      if rc == Ok { state := state.(staged := Some([])); }
    }

    /** The causal forward of a block; on success its rows are the state's. */
    method Forward(inputs: seq<Token>) returns (rc: Status, ids: seq<Token>, hidden: seq<Hidden>, taps: seq<Hidden>)
      requires state.staged.Some?
      modifies this
      ensures faulted == (old(faulted) || rc != Ok)
      ensures rc == Ok ==> state == old(state).(staged := Some(inputs))
      ensures rc == Ok ==> ids == Rows(lm.next, state.committed, inputs) && taps == Rows(lm.tap, state.committed, inputs)
      ensures rc == Ok ==> hidden == Rows(lm.hidden, state.committed, inputs)
      ensures rc != Ok ==> state == old(state)
    {
      rc, ids, hidden, taps := *, [], [], [];
      faulted := faulted || rc != Ok;
      if rc == Ok {
        state := state.(staged := Some(inputs));
        ids, hidden := Rows(lm.next, state.committed, inputs), Rows(lm.hidden, state.committed, inputs);
        taps := Rows(lm.tap, state.committed, inputs);
      }
    }

    /** Commit consumes the handle on both outcomes; what a failed one leaves committed is unknown. */
    method Commit(prefix: nat) returns (rc: Status)
      requires state.staged.Some? && prefix <= |state.staged.value|
      modifies this
      ensures faulted == (old(faulted) || rc != Ok)
      ensures state.staged.None?
      ensures rc == Ok ==> state.committed == old(state).committed + old(state).staged.value[..prefix]
    {
      rc := *;
      faulted := faulted || rc != Ok;
      var committed: seq<Token> := *;
      if rc == Ok { committed := state.committed + state.staged.value[..prefix]; }
      state := TargetState(committed, None);
    }

    method Abort() returns (rc: Status)
      requires state.staged.Some?
      modifies this
      ensures faulted == (old(faulted) || rc != Ok)
      ensures state.staged.None?
      ensures rc == Ok ==> state.committed == old(state).committed
    {
      rc := *;
      faulted := faulted || rc != Ok;
      var committed: seq<Token> := *;
      if rc == Ok { committed := state.committed; }
      state := TargetState(committed, None);
    }
  }
}
