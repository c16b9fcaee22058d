/**
 The DSpark controller of src/axiom_qwen38_speculative.cpp (host prefill and step) over two
 transactional back ends.  Any back-end call may fail; a commit or abort that fails leaves its
 back end in an unknown state.
 */
module Speculative {
  import opened Common
  import opened Speculation

  /** The draft: taps below its watermark, and the columns staged by an open transaction. */
  datatype DraftState = DraftState(taps: seq<Hidden>, staged: Option<seq<Hidden>>)

  /** A verify result: the target ids are the target's; the rest is whatever the back end reports. */
  datatype Verify = Verify(
    snapshot: nat, after: nat, shapeOk: bool, ids: seq<Token>, finite: bool, accepted: nat, bonus: Token)

  /** Both back ends stand at the same position. */
  predicate SamePosition(t: TargetState, d: DraftState) {
    |t.committed| == |d.taps|
  }

  /** Both are idle, and the draft holds the target's taps of exactly the committed tokens. */
  ghost predicate InStep(lm: Target, t: TargetState, d: DraftState) {
    t.staged.None? && d.staged.None? && d.taps == Rows(lm.tap, [], t.committed)
  }

  lemma TapsExtend(lm: Target, committed: seq<Token>, block: seq<Token>)
    ensures Rows(lm.tap, [], committed + block) == Rows(lm.tap, [], committed) + Rows(lm.tap, committed, block)
  {
    RowsJoin(lm.tap, [], committed, block);
    assert [] + committed == committed;
  }

  /** A committed block keeps the draft's taps those of the committed tokens. */
  lemma BlockKeepsTaps(lm: Target, committed: seq<Token>, inputs: seq<Token>, n: nat)
    requires n <= |inputs|
    ensures Rows(lm.tap, [], committed + inputs[..n]) == Rows(lm.tap, [], committed) + Rows(lm.tap, committed, inputs)[..n]
  {
    TapsExtend(lm, committed, inputs[..n]);
    RowsPrefix(lm.tap, committed, inputs, n);
  }

  /** Committing the accepted inputs on both sides is a step of greedy decoding. */
  lemma CommittedBlock(lm: Target, t: TargetState, d: DraftState, t': TargetState, d': DraftState,
                       anchor: Token, drafts: seq<Token>, ids: seq<Token>, prefix: nat)
    requires SamePosition(t, d) && |drafts| == DRAFT_TOKENS && ids == Rows(lm.next, t.committed, [anchor] + drafts)
    requires prefix == LongestPrefix(drafts, ids)
    requires t' == TargetState(t.committed + ([anchor] + drafts)[..1 + prefix], None)
    requires d' == DraftState(d.taps + Rows(lm.tap, t.committed, [anchor] + drafts)[..1 + prefix], None)
    ensures Stepped(lm, t.committed, t'.committed, anchor, ResultOf(|t.committed|, drafts, ids, prefix))
    ensures SamePosition(t', d')
    ensures d.taps == Rows(lm.tap, [], t.committed) ==> InStep(lm, t', d')
  {
    BlockSteps(lm, t.committed, anchor, drafts, ids, prefix);
    BlockKeepsTaps(lm, t.committed, [anchor] + drafts, 1 + prefix);
  }

  predicate AllInVocabulary(tokens: seq<Token>) {
    forall i | 0 <= i < |tokens| :: tokens[i] < VOCAB
  }

  /** The back end reports its positions, its finiteness and its acceptance as they are. */
  ghost predicate Honest(v: Verify, snapshot: nat, drafts: seq<Token>) {
    && AllInVocabulary(drafts) && v.snapshot == snapshot && v.after == snapshot + VERIFY_WIDTH && v.shapeOk && v.finite
    && v.accepted == LongestPrefix(drafts, v.ids) && |v.ids| == VERIFY_WIDTH && v.bonus == v.ids[DRAFT_TOKENS]
  }

  class Controller {
    const target: TargetModel
    var draft: DraftState
    var poisoned: bool
    /** Some call to the draft or the device has failed or misreported. */
    ghost var faulted: bool

    /** Something outside the controller went wrong. */
    ghost predicate Trouble()
      reads this, target
    {
      faulted || target.faulted
    }

    /** What a call needs of the controller's own state. */
    predicate Ready()
      reads this, target
    {
      !poisoned && draft.staged.None? && SamePosition(target.state, draft)
    }

    /** speculative_create takes two back ends as they are. */
    constructor (target: TargetModel, draft: DraftState)
      ensures this.target == target && this.draft == draft && !poisoned && !faulted
    {
      this.target, this.draft, poisoned, faulted := target, draft, false, false;
    }

    // ------------------------------------------------------ back ends, by contract

    method DraftBegin() returns (rc: Status)
      requires draft.staged.None?
      modifies this`draft, this`faulted
      ensures faulted == (old(faulted) || rc != Ok)
      ensures draft == old(draft).(staged := if rc == Ok then Some([]) else None)
    {
      rc := *;
      faulted := faulted || rc != Ok;
      if rc == Ok { draft := draft.(staged := Some([])); }
    }

    /** Injected taps are staged inside a transaction and kept at once outside of one. */
    method DraftInject(taps: seq<Hidden>) returns (rc: Status)
      modifies this`draft, this`faulted
      ensures faulted == (old(faulted) || rc != Ok)
      ensures rc != Ok ==> draft == old(draft)
      ensures rc == Ok && old(draft).staged.Some? ==> draft == old(draft).(staged := Some(taps))
      ensures rc == Ok && old(draft).staged.None? ==> draft == old(draft).(taps := old(draft).taps + taps)
    {
      rc := *;
      faulted := faulted || rc != Ok;
      if rc == Ok {
        if draft.staged.Some? {
          draft := draft.(staged := Some(taps));
        } else {
          draft := draft.(taps := draft.taps + taps);
        }
      }
    }

    method DraftCommit(accepted: nat) returns (rc: Status)
      requires draft.staged.Some? && 1 + accepted <= |draft.staged.value|
      modifies this`draft, this`faulted
      ensures faulted == (old(faulted) || rc != Ok)
      ensures rc == Ok ==> draft == DraftState(old(draft).taps + old(draft).staged.value[..1 + accepted], None)
      ensures rc != Ok ==> draft.staged == old(draft).staged
    {
      rc := *;
      faulted := faulted || rc != Ok;
      if rc == Ok {
        draft := DraftState(draft.taps + draft.staged.value[..1 + accepted], None);
      } else {
        var taps: seq<Hidden> := *;
        draft := draft.(taps := taps);
      }
    }

    method DraftAbort() returns (rc: Status)
      requires draft.staged.Some?
      modifies this`draft, this`faulted
      ensures faulted == (old(faulted) || rc != Ok)
      ensures draft.staged.None?
      ensures rc == Ok ==> draft.taps == old(draft).taps
    {
      rc := *;
      faulted := faulted || rc != Ok;
      var taps: seq<Hidden> := *;
      if rc == Ok { taps := draft.taps; }
      draft := DraftState(taps, None);
    }

    // ---------------------------------------------------------------- controller

    /** Capabilities, draft info and positions; nothing changes. */
    method Entry() returns (rc: Status)
      modifies this`faulted
      ensures rc == Ok ==> draft.staged.None? && SamePosition(target.state, draft)
      ensures old(faulted) ==> faulted
      ensures rc != Ok ==> faulted || draft.staged.Some? || !SamePosition(target.state, draft)
    {
      rc := *;
      var capable: bool := *;
      faulted := faulted || rc != Ok || !capable;
      if rc != Ok { return; }
      if !capable { return NotImplemented; }
      if draft.staged.Some? || |draft.taps| != |target.state.committed| { return Runtime; }
    }

    /** Abort the target's transaction and poison when even that fails. */
    method AbandonTarget(poison: bool)
      requires target.state.staged.Some?
      modifies target, this`poisoned
      ensures target.state.staged.None? && (old(poisoned) || poison ==> poisoned)
      ensures old(target.faulted) ==> target.faulted
      ensures !poisoned ==> target.state.committed == old(target.state).committed
    {
      var rc := target.Abort();
      if poison || rc != Ok { poisoned := true; }
    }

    /** Consume `tokens` on both sides: the shared core of prefill_token and prefill_block8. */
    method Prefill(tokens: seq<Token>) returns (rc: Status, ids: seq<Token>)
      requires target.state.staged.None?
      modifies this, target
      ensures target.state.staged.None? && (old(poisoned) ==> poisoned)
      ensures old(InStep(target.lm, target.state, draft)) && !poisoned ==> InStep(target.lm, target.state, draft)
      ensures old(draft.staged.None?) && !poisoned ==> (SamePosition(target.state, draft) <==> old(SamePosition(target.state, draft)))
      ensures rc == Ok ==> !poisoned && old(SamePosition(target.state, draft))
      ensures rc == Ok ==> target.state.committed == old(target.state).committed + tokens
      ensures rc == Ok ==> ids == Rows(target.lm.next, old(target.state).committed, tokens)
      ensures rc != Ok && !poisoned ==> target.state.committed == old(target.state).committed && draft.taps == old(draft).taps
      ensures old(Trouble()) ==> Trouble()
      ensures rc != Ok ==> Trouble() || !old(Ready()) || !Worded(target.lm)
    {
      ids := [];
      if poisoned { return Runtime, ids; }
      rc := Entry();
      if rc != Ok { return; }
      rc := target.Begin();
      if rc != Ok { return; }
      var hidden, taps;
      rc, ids, hidden, taps := target.Forward(tokens);
      if rc == Ok {
        var sane: bool := *;
        faulted := faulted || !sane;
        if !sane || !AllInVocabulary(ids) { rc := Runtime; }
      }
      if rc != Ok {
        AbandonTarget(false);
        return;
      }
      rc := DraftInject(taps);
      var advanced := rc == Ok;
      if rc == Ok {
        rc := *;
        faulted := faulted || rc != Ok;
        if rc == Ok && |draft.taps| != |target.state.committed| + |tokens| { rc := Runtime; }
      }
      if rc != Ok {
        AbandonTarget(advanced);
        return;
      }
      rc := target.Commit(|tokens|);
      if rc == Ok && |target.state.committed| != |draft.taps| { rc := Runtime; }
      if rc != Ok {
        poisoned := true;
        return;
      }
      assert tokens[..|tokens|] == tokens;
      TapsExtend(target.lm, old(target.state).committed, tokens);
    }

    /** prefill_token: one prompt token; the result is the target's next greedy token. */
    method PrefillToken(token: Token) returns (rc: Status, next: Token)
      requires target.state.staged.None?
      modifies this, target
      ensures target.state.staged.None? && (old(poisoned) ==> poisoned)
      ensures old(InStep(target.lm, target.state, draft)) && !poisoned ==> InStep(target.lm, target.state, draft)
      ensures old(draft.staged.None?) && !poisoned ==> (SamePosition(target.state, draft) <==> old(SamePosition(target.state, draft)))
      ensures rc == Ok ==> target.state.committed == old(target.state).committed + [token] && next == target.lm.next(target.state.committed)
      ensures rc != Ok && !poisoned ==> target.state.committed == old(target.state).committed && draft.taps == old(draft).taps
      ensures old(Trouble()) ==> Trouble()
      ensures rc != Ok ==> Trouble() || !old(Ready()) || !Worded(target.lm) || token >= VOCAB
    {
      next := 0;
      if token >= VOCAB { return InvalidArgument, next; }
      var ids;
      rc, ids := Prefill([token]);
      if rc == Ok {
        assert [token][..1] == [token];
        next := ids[0];
      }
    }

    /** prefill_block8: eight prompt tokens at once. */
    method PrefillBlock8(tokens: seq<Token>) returns (rc: Status, ids: seq<Token>)
      requires target.state.staged.None? && |tokens| == VERIFY_WIDTH
      modifies this, target
      ensures target.state.staged.None? && (old(poisoned) ==> poisoned)
      ensures old(InStep(target.lm, target.state, draft)) && !poisoned ==> InStep(target.lm, target.state, draft)
      ensures old(draft.staged.None?) && !poisoned ==> (SamePosition(target.state, draft) <==> old(SamePosition(target.state, draft)))
      ensures rc == Ok ==> target.state.committed == old(target.state).committed + tokens
      ensures rc == Ok ==> ids == Rows(target.lm.next, old(target.state).committed, tokens)
      ensures rc != Ok && !poisoned ==> target.state.committed == old(target.state).committed && draft.taps == old(draft).taps
      ensures old(Trouble()) ==> Trouble()
      ensures rc != Ok ==> Trouble() || !old(Ready()) || !Worded(target.lm) || !AllInVocabulary(tokens)
    {
      if !AllInVocabulary(tokens) { return InvalidArgument, []; }
      rc, ids := Prefill(tokens);
    }

    // ---------------------------------------------------------------------- step

    /** valid_verify_result: the reported prefix is accepted exactly when it is the longest matching one. */
    method ValidVerify(v: Verify, snapshot: nat, drafts: seq<Token>) returns (ok: bool, prefix: nat)
      requires |drafts| == DRAFT_TOKENS && |v.ids| == VERIFY_WIDTH
      ensures ok <==> && v.snapshot == snapshot && v.after == snapshot + VERIFY_WIDTH && v.shapeOk && v.finite
                      && AllInVocabulary(drafts) && AllInVocabulary(v.ids)
                      && v.accepted == LongestPrefix(drafts, v.ids) && v.bonus == v.ids[DRAFT_TOKENS]
      ensures ok ==> prefix == LongestPrefix(drafts, v.ids)
    {
      ok, prefix := false, 0;
      if v.snapshot != snapshot || v.after != snapshot + VERIFY_WIDTH || !v.shapeOk { return; }
      for i := 0 to |drafts|
        invariant forall j :: 0 <= j < i ==> drafts[j] < VOCAB
      {
        if drafts[i] >= VOCAB { return; }
      }
      for i := 0 to |v.ids|
        invariant forall j :: 0 <= j < i ==> v.ids[j] < VOCAB
      {
        if v.ids[i] >= VOCAB { return; }
      }
      if !v.finite { return; }
      prefix := FindLongestPrefix(drafts, v.ids);
      if v.accepted != prefix || v.bonus != v.ids[DRAFT_TOKENS] { return; }
      ok := true;
    }

    /** abort_open_transactions: the target first, then the draft; the first error wins. */
    method AbortOpen() returns (rc: Status)
      modifies target, this`draft, this`faulted
      ensures old(Trouble()) ==> Trouble()
      ensures target.state.staged.None? && draft.staged.None?
      ensures rc == Ok ==> target.state.committed == old(target.state).committed && draft.taps == old(draft).taps
    {
      rc := Ok;
      if target.state.staged.Some? { rc := target.Abort(); }
      if draft.staged.Some? {
        var other := DraftAbort();
        if rc == Ok { rc := other; }
      }
    }

    /** A failed step gives up what is open and poisons when that fails too. */
    method GiveUp()
      modifies target, this`draft, this`poisoned, this`faulted
      ensures old(Trouble()) ==> Trouble()
      ensures target.state.staged.None? && draft.staged.None? && (old(poisoned) ==> poisoned)
      ensures !poisoned ==> target.state.committed == old(target.state).committed && draft.taps == old(draft).taps
    {
      var rc := AbortOpen();
      if rc != Ok { poisoned := true; }
    }

    /** Open both transactions, draft, verify and stage the taps. */
    method Propose(anchor: Token) returns (rc: Status, drafts: seq<Token>, ids: seq<Token>, prefix: nat)
      requires target.state.staged.None? && draft.staged.None?
      modifies target, this`draft, this`faulted
      ensures old(Trouble()) ==> Trouble()
      ensures rc != Ok ==> Trouble() || !Worded(target.lm)
      ensures target.state.committed == old(target.state).committed && draft.taps == old(draft).taps
      ensures rc == Ok ==> |drafts| == DRAFT_TOKENS
      ensures rc == Ok ==> target.state.staged == Some([anchor] + drafts)
      ensures rc == Ok ==> draft.staged == Some(Rows(target.lm.tap, target.state.committed, [anchor] + drafts))
      ensures rc == Ok ==> ids == Rows(target.lm.next, target.state.committed, [anchor] + drafts) && prefix == LongestPrefix(drafts, ids)
    {
      drafts, ids, prefix := [], [], 0;
      rc := DraftBegin();
      if rc != Ok { return; }
      rc := target.Begin();
      if rc != Ok { return; }
      rc := *;
      faulted := faulted || rc != Ok;
      if rc != Ok { return; }
      drafts := *;
      if |drafts| != DRAFT_TOKENS { drafts := [0, 0, 0, 0, 0, 0, 0]; }
      var hidden, taps;
      rc, ids, hidden, taps := target.Forward([anchor] + drafts);
      if rc != Ok { return; }
      var snapshot, after, shapeOk, finite, accepted: nat, bonus: Token := *, *, *, *, *, *;
      var report := Verify(snapshot, after, shapeOk, ids, finite, accepted, bonus);
      faulted := faulted || !Honest(report, |target.state.committed|, drafts);
      var valid;
      valid, prefix := ValidVerify(report, |target.state.committed|, drafts);
      if !valid { return Runtime, drafts, ids, prefix; }
      rc := DraftInject(taps);
    }

    /** The target's commit is authoritative; a draft that cannot follow poisons the controller. */
    method Commit(prefix: nat) returns (rc: Status)
      requires target.state.staged.Some? && draft.staged.Some? && !poisoned
      requires 1 + prefix <= |target.state.staged.value| && 1 + prefix <= |draft.staged.value|
      modifies this, target
      ensures target.state.staged.None? && (poisoned <==> rc != Ok)
      ensures old(Trouble()) || rc != Ok ==> Trouble()
      ensures rc == Ok ==> target.state.committed == old(target.state).committed + old(target.state).staged.value[..1 + prefix]
      ensures rc == Ok ==> draft == DraftState(old(draft).taps + old(draft).staged.value[..1 + prefix], None)
    {
      rc := target.Commit(1 + prefix);
      if rc == Ok { rc := DraftCommit(prefix); }
      if rc != Ok {
        var _ := AbortOpen();
        poisoned := true;
      }
    }

    /**
     speculative_step: on success the emitted tokens are greedy decoding from the anchor and both
     sides advance by one plus the accepted prefix; on failure nothing moves or all is poisoned.
     */
    method Step(anchor: Token) returns (rc: Status, r: Option<StepResult>)
      requires target.state.staged.None?
      modifies this, target
      ensures target.state.staged.None? && (old(poisoned) ==> poisoned)
      ensures old(InStep(target.lm, target.state, draft)) && !poisoned ==> InStep(target.lm, target.state, draft)
      ensures old(draft.staged.None?) && !poisoned ==> (SamePosition(target.state, draft) <==> old(SamePosition(target.state, draft)))
      ensures rc == Ok <==> r.Some?
      ensures rc == Ok ==> !poisoned && Stepped(target.lm, old(target.state).committed, target.state.committed, anchor, r.value)
      ensures rc == Ok ==> |draft.taps| == r.value.after
      ensures rc != Ok && !poisoned ==> target.state.committed == old(target.state).committed && draft.taps == old(draft).taps
      ensures old(Trouble()) ==> Trouble()
      ensures rc != Ok ==> Trouble() || !old(Ready()) || !Worded(target.lm) || anchor >= VOCAB
    {
      r := None;
      if anchor >= VOCAB { return InvalidArgument, r; }
      if poisoned { return Runtime, r; }
      var device: bool := *;
      faulted := faulted || !device;
      if !device { return Cuda, r; }
      rc := Entry();
      if rc != Ok { return; }
      var before := |target.state.committed|;
      var drafts, ids, prefix;
      rc, drafts, ids, prefix := Propose(anchor);
      if rc != Ok {
        GiveUp();
        return;
      }
      rc := Commit(prefix);
      if rc != Ok { return; }
      CommittedBlock(target.lm, old(target.state), old(draft), target.state, draft, anchor, drafts, ids, prefix);
      r := Some(ResultOf(before, drafts, ids, prefix));
    }

    /** Lossless over whole runs: steps chained through their continuation tokens, until one fails. */
    method Decode(anchor: Token, steps: nat) returns (emitted: seq<Token>, last: Token, done: nat)
      requires InStep(target.lm, target.state, draft)
      modifies this, target
      ensures emitted == Greedy(target.lm, old(target.state).committed + [anchor], |emitted|) && |emitted| >= done
      ensures !poisoned ==> InStep(target.lm, target.state, draft)
      ensures !poisoned ==> target.state.committed + [last] == old(target.state).committed + [anchor] + emitted
      ensures done <= steps && (done == steps > 0 ==> !poisoned)
      ensures done < steps ==> Trouble() || old(poisoned) || !Worded(target.lm) || anchor >= VOCAB
    {
      emitted, last, done := [], anchor, 0;
      ghost var start := target.state.committed + [anchor];
      while done < steps
        invariant done <= steps && target.state.staged.None? && |emitted| >= done
        invariant emitted == Greedy(target.lm, start, |emitted|)
        invariant !poisoned ==> InStep(target.lm, target.state, draft) && start + emitted == target.state.committed + [last]
        invariant done > 0 ==> !poisoned
        invariant done == 0 ==> last == anchor && poisoned == old(poisoned)
        invariant Worded(target.lm) && done > 0 ==> last < VOCAB
      {
        ghost var history := target.state.committed;
        var rc, r := Step(last);
        if rc != Ok { return; }
        ContinuationWorded(target.lm, history, target.state.committed, last, r.value);
        ChainStep(target.lm, start, emitted, history, last, r.value.emitted);
        emitted, last, done := emitted + r.value.emitted, r.value.continuation, done + 1;
      }
    }
  }
}