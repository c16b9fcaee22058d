/**
 The MTP controller of src/axiom_qwen38_mtp_speculative.cpp (host prefill and step): the draft
 cache pairs each token with the target's hidden state of the token before it, whatever blocks the
 tokens arrived in and whichever back-end calls failed.
 */
module MtpSpeculative {
  import opened Common
  import opened Speculation

  type Pair = (Token, Hidden)

  datatype Phase = Idle | Open(staged: seq<Pair>) | Failed

  /** Committed pairs, and where the transaction stands. */
  datatype MtpState = MtpState(cache: seq<Pair>, phase: Phase)

  // ------------------------------------------------------------ the right pairs

  /** Hidden state of the last consumed token; `first` before there is one. */
  function LastHidden(lm: Target, first: Hidden, consumed: seq<Token>): Hidden {
    if consumed == [] then first else lm.hidden(consumed)
  }

  function Pairs(lm: Target, first: Hidden, consumed: seq<Token>): (r: seq<Pair>)
    ensures |r| == |consumed|
    ensures forall p :: 0 <= p < |consumed| ==> r[p] == (consumed[p], LastHidden(lm, first, consumed[..p]))
  {
    seq(|consumed|, p requires 0 <= p < |consumed| => (consumed[p], LastHidden(lm, first, consumed[..p])))
  }

  function Zip(tokens: seq<Token>, prior: seq<Hidden>): (r: seq<Pair>)
    requires |tokens| == |prior|
    ensures |r| == |tokens| && forall i :: 0 <= i < |tokens| ==> r[i] == (tokens[i], prior[i])
  {
    seq(|tokens|, i requires 0 <= i < |tokens| => (tokens[i], prior[i]))
  }

  /** The prior rows of a committed block: the pending row, then the verified ones. */
  function Priors(pending: Hidden, hidden: seq<Hidden>, n: nat): (r: seq<Hidden>)
    requires 0 < n <= |hidden|
    ensures |r| == n
  {
    [pending] + hidden[..n - 1]
  }

  /** Pairs do not depend on how tokens were split into blocks. */
  lemma PairsExtend(lm: Target, first: Hidden, consumed: seq<Token>, inputs: seq<Token>, n: nat)
    requires 0 < n <= |inputs|
    ensures Pairs(lm, first, consumed + inputs[..n]) ==
            Pairs(lm, first, consumed) +
            Zip(inputs[..n], Priors(LastHidden(lm, first, consumed), Rows(lm.hidden, consumed, inputs), n))
  {
    var all, block := consumed + inputs[..n], inputs[..n];
    var prior := Priors(LastHidden(lm, first, consumed), Rows(lm.hidden, consumed, inputs), n);
    forall p | 0 <= p < |all| ensures Pairs(lm, first, all)[p] == (Pairs(lm, first, consumed) + Zip(block, prior))[p] {
      if p < |consumed| {
        assert all[..p] == consumed[..p];
      } else if p == |consumed| {
        assert all[..p] == consumed;
      } else {
        var i := p - |consumed|;
        assert all[..p] == consumed + inputs[..i];
        assert prior[i] == Rows(lm.hidden, consumed, inputs)[i - 1];
      }
    }
  }

  lemma LastOfBlock(lm: Target, first: Hidden, consumed: seq<Token>, inputs: seq<Token>, n: nat)
    requires 0 < n <= |inputs|
    ensures Rows(lm.hidden, consumed, inputs)[n - 1] == LastHidden(lm, first, consumed + inputs[..n])
  {
    assert inputs[..n - 1 + 1] == inputs[..n];
  }

  // --------------------------------------------------------- the MTP back end

  /** The MTP compute by its transaction invariants: no error moves the committed position. */
  class MtpCompute {
    var state: MtpState
    /** Some call has failed on its own account. */
    ghost var faulted: bool

    constructor (state: MtpState)
      ensures this.state == state && !faulted
    {
      this.state, faulted := state, false;
    }

    method Begin(first: nat) returns (rc: Status)
      modifies this
      ensures state.cache == old(state).cache
      ensures rc == Ok ==> old(state).phase.Idle? && first == |state.cache| && state.phase == Open([])
      ensures rc != Ok ==> state == old(state)
      ensures old(faulted) ==> faulted
      ensures rc != Ok ==> faulted || !old(state).phase.Idle? || first != |state.cache|
    {
      rc := *;
      faulted := faulted || rc != Ok;
      if !state.phase.Idle? || first != |state.cache| { rc := Runtime; }
      if rc == Ok { state := state.(phase := Open([])); }
    }

    /** Stages the pairs of a block that starts at the staged position. */
    method Forward(tokens: seq<Token>, prior: seq<Hidden>, first: nat) returns (rc: Status, top: seq<Token>)
      requires |tokens| == |prior|
      modifies this
      ensures state.cache == old(state).cache
      ensures rc == Ok ==>
                && old(state).phase.Open? && first == |state.cache| + |old(state).phase.staged|
                && state.phase == Open(old(state).phase.staged + Zip(tokens, prior)) && |top| == |tokens|
      ensures rc != Ok ==> state.phase == if old(state).phase.Open? then Failed else old(state).phase
      ensures old(faulted) ==> faulted
      ensures rc != Ok ==> || faulted || !old(state).phase.Open? || first != |state.cache| + |old(state).phase.staged|
                           || |tokens| == 0 || |tokens| > VERIFY_WIDTH
    {
      rc, top := *, *;
      faulted := faulted || rc != Ok;
      if |top| != |tokens| { top := tokens; }
      if !state.phase.Open? {
        rc := Runtime;
        return;
      }
      if first != |state.cache| + |state.phase.staged| || |tokens| == 0 || |tokens| > VERIFY_WIDTH { rc := Runtime; }
      if rc == Ok {
        state := state.(phase := Open(state.phase.staged + Zip(tokens, prior)));
      } else {
        state := state.(phase := Failed);
      }
    }

    method CommitPrefix(n: nat) returns (rc: Status)
      modifies this
      ensures rc == Ok ==>
                && old(state).phase.Open? && n <= |old(state).phase.staged|
                && state == MtpState(old(state).cache + old(state).phase.staged[..n], Idle)
      ensures rc != Ok ==> state.cache == old(state).cache
      ensures old(faulted) ==> faulted
      ensures rc != Ok ==> faulted || !old(state).phase.Open? || n > |old(state).phase.staged|
    {
      rc := *;
      faulted := faulted || rc != Ok;
      if !state.phase.Open? || n > |state.phase.staged| { rc := Runtime; }
      if rc == Ok {
        state := MtpState(state.cache + state.phase.staged[..n], Idle);
      } else {
        state := state.(phase := Failed);
      }
    }

    method Abort() returns (rc: Status)
      modifies this
      ensures state.cache == old(state).cache && !state.phase.Open?
      ensures rc == Ok ==> state.phase.Idle?
      ensures old(faulted) ==> faulted
      ensures rc != Ok ==> faulted
    {
      rc := *;
      faulted := faulted || rc != Ok;
      state := state.(phase := if rc == Ok then Idle else Failed);
    }

    method RestorePosition(position: nat) returns (rc: Status)
      modifies this
      ensures rc == Ok ==> position <= |old(state).cache| && state == MtpState(old(state).cache[..position], Idle)
      ensures rc != Ok ==> state == old(state)
      ensures old(faulted) ==> faulted
      ensures rc != Ok ==> faulted || position > |old(state).cache|
    {
      rc := *;
      faulted := faulted || rc != Ok;
      if position > |state.cache| { rc := Runtime; }
      if rc == Ok { state := MtpState(state.cache[..position], Idle); }
    }
  }

  // -------------------------------------------------------------- the controller

  /** Cache and pending row are those of the committed tokens, and no transaction is open. */
  ghost predicate Aligned(lm: Target, first: Hidden, t: TargetState, m: MtpState, pending: Hidden) {
    && t.staged.None? && !m.phase.Open?
    && m.cache == Pairs(lm, first, t.committed)
    && pending == LastHidden(lm, first, t.committed)
  }

  /** Both back ends took the first `n` inputs, and the pending row is the last of them. */
  ghost predicate Took(lm: Target, t: TargetState, m: MtpState, pending: Hidden, inputs: seq<Token>, n: nat,
                       t': TargetState, m': MtpState, pending': Hidden) {
    && 0 < n <= |inputs|
    && t' == TargetState(t.committed + inputs[..n], None)
    && m' == MtpState(m.cache + Zip(inputs[..n], Priors(pending, Rows(lm.hidden, t.committed, inputs), n)), Idle)
    && pending' == Rows(lm.hidden, t.committed, inputs)[n - 1]
  }

  /** Taking a block keeps cache and pending row those of the committed tokens. */
  lemma TookAligned(lm: Target, first: Hidden, t: TargetState, m: MtpState, pending: Hidden, inputs: seq<Token>, n: nat,
                    t': TargetState, m': MtpState, pending': Hidden)
    requires Took(lm, t, m, pending, inputs, n, t', m', pending')
    requires m.cache == Pairs(lm, first, t.committed) && pending == LastHidden(lm, first, t.committed)
    ensures Aligned(lm, first, t', m', pending')
  {
    PairsExtend(lm, first, t.committed, inputs, n);
    LastOfBlock(lm, first, t.committed, inputs, n);
  }

  class Controller {
    const target: TargetModel
    const mtp: MtpCompute
    const pending: array<Hidden>
    var index: nat
    var poisoned: bool
    /** Some call of the controller's own to the device has failed, or a report was wrong. */
    ghost var faulted: bool

    /** Something outside the controller went wrong. */
    ghost predicate Trouble()
      reads this, target, mtp
    {
      faulted || target.faulted || mtp.faulted
    }

    constructor (target: TargetModel, mtp: MtpCompute, first: Hidden)
      ensures this.target == target && this.mtp == mtp && Valid() && !poisoned && !faulted && fresh(pending)
      ensures pending[index] == first
    {
      this.target, this.mtp := target, mtp;
      pending := new Hidden[2](_ => first);
      index, poisoned, faulted := 0, false, false;
    }

    predicate Valid()
      reads this
    {
      pending.Length == 2 && index < 2
    }

    /** Positions agree, as state_positions_match reads them. */
    predicate SamePosition()
      reads target, mtp
    {
      |target.state.committed| == |mtp.state.cache|
    }

    ghost predicate InStep(first: Hidden)
      requires Valid()
      reads this, target, mtp, pending
    {
      Aligned(target.lm, first, target.state, mtp.state, pending[index])
    }

    /** Cache and pending row are those of the committed tokens, whatever is staged. */
    ghost predicate Followed(first: Hidden)
      requires Valid()
      reads this, target, mtp, pending
    {
      && mtp.state.cache == Pairs(target.lm, first, target.state.committed)
      && pending[index] == LastHidden(target.lm, first, target.state.committed)
    }

    /** abort_both: poisons when either abort fails. */
    method AbortBoth(mtpOpen: bool)
      modifies this`poisoned, target, mtp
      ensures target.state.staged.None? && mtp.state.cache == old(mtp.state).cache && (old(poisoned) ==> poisoned)
      ensures mtpOpen || !old(mtp.state).phase.Open? ==> !mtp.state.phase.Open?
      ensures !poisoned ==> target.state.committed == old(target.state).committed
      ensures old(Trouble()) ==> Trouble()
    {
      var targetRc, mtpRc := Ok, Ok;
      if target.state.staged.Some? { targetRc := target.Abort(); }
      if mtpOpen { mtpRc := mtp.Abort(); }
      if targetRc != Ok || mtpRc != Ok { poisoned := true; }
    }

    /** Gives up after an error `rc`; a CUDA error poisons as well. */
    method GiveUp(rc: Status, mtpOpen: bool)
      modifies this`poisoned, target, mtp
      ensures target.state.staged.None? && mtp.state.cache == old(mtp.state).cache && (old(poisoned) || rc == Cuda ==> poisoned)
      ensures mtpOpen || !old(mtp.state).phase.Open? ==> !mtp.state.phase.Open?
      ensures !poisoned ==> target.state.committed == old(target.state).committed
      ensures old(Trouble()) ==> Trouble()
    {
      AbortBoth(mtpOpen);
      poisoned := poisoned || rc == Cuda;
    }

    /** Stage the pairs of the first `n` inputs and put the last verified row in the other buffer. */
    method StageBlock(inputs: seq<Token>, hidden: seq<Hidden>, n: nat) returns (rc: Status, open: bool)
      requires Valid() && 0 < n <= |inputs| == |hidden|
      modifies mtp, pending, this`faulted
      ensures mtp.state.cache == old(mtp.state).cache && pending[index] == old(pending[index])
      ensures open || mtp.state == old(mtp.state)
      ensures rc == Ok ==> open && |mtp.state.cache| == |target.state.committed|
      ensures rc == Ok ==> mtp.state.phase == Open(Zip(inputs[..n], Priors(pending[index], hidden, n)))
      ensures rc == Ok ==> pending[1 - index] == hidden[n - 1]
      ensures old(Trouble()) ==> Trouble()
      ensures rc != Ok ==> Trouble() || !old(mtp.state).phase.Idle? || !SamePosition() || n > VERIFY_WIDTH
    {
      rc := mtp.Begin(|target.state.committed|);
      open := rc == Ok;
      if rc != Ok { return; }
      var top;
      rc, top := mtp.Forward(inputs[..n], Priors(pending[index], hidden, n), |target.state.committed|);
      if rc != Ok { return; }
      rc := *;
      faulted := faulted || rc != Ok;
      pending[1 - index] := if rc == Ok then hidden[n - 1] else [];
      if rc != Ok { return; }
      rc := *;
      faulted := faulted || rc != Ok;
    }

    /** Draft first, target last: the target's commit is authoritative, and its failure poisons. */
    method CommitBlock(n: nat) returns (rc: Status)
      requires Valid() && !poisoned && mtp.state.phase.Open? && n <= |mtp.state.phase.staged|
      requires target.state.staged.Some? && n <= |target.state.staged.value|
      modifies this`poisoned, this`index, this`faulted, target, mtp
      ensures Valid() && target.state.staged.None?
      ensures rc == Ok ==> !poisoned && index == 1 - old(index)
      ensures rc == Ok ==> target.state.committed == old(target.state).committed + old(target.state).staged.value[..n]
      ensures rc == Ok ==> mtp.state == MtpState(old(mtp.state).cache + old(mtp.state).phase.staged[..n], Idle)
      ensures rc != Ok && !poisoned ==>
                && index == old(index) && target.state.committed == old(target.state).committed
                && mtp.state.cache == old(mtp.state).cache && !mtp.state.phase.Open?
      ensures old(Trouble()) ==> Trouble()
      ensures rc != Ok ==> Trouble()
    {
      var snapshot := |target.state.committed|;
      rc := mtp.CommitPrefix(n);
      if rc != Ok {
        AbortBoth(true);
        return;
      }
      rc := target.Commit(n);
      if rc != Ok {
        var _ := mtp.RestorePosition(snapshot);
        poisoned := true;
        return;
      }
      index := 1 - index;
    }

    /** Take the first `n` verified inputs on both sides, or change nothing that counts. */
    method TakeBlock(inputs: seq<Token>, hidden: seq<Hidden>, n: nat) returns (rc: Status)
      requires Valid() && !poisoned && 0 < n <= |inputs| && !mtp.state.phase.Open?
      requires target.state.staged == Some(inputs) && hidden == Rows(target.lm.hidden, target.state.committed, inputs)
      modifies this`poisoned, this`index, this`faulted, target, mtp, pending
      ensures Valid() && target.state.staged.None?
      ensures rc == Ok ==> !poisoned && Took(target.lm, old(target.state), old(mtp.state), old(pending[index]), inputs, n,
                                             target.state, mtp.state, pending[index])
      ensures rc != Ok && !poisoned ==>
                && target.state.committed == old(target.state).committed && mtp.state.cache == old(mtp.state).cache
                && !mtp.state.phase.Open? && pending[index] == old(pending[index])
      ensures old(Trouble()) ==> Trouble()
      ensures rc != Ok ==> Trouble() || old(!mtp.state.phase.Idle? || !SamePosition()) || n > VERIFY_WIDTH
    {
      var open;
      rc, open := StageBlock(inputs, hidden, n);
      if rc != Ok {
        GiveUp(rc, open);
        return;
      }
      assert mtp.state.phase.staged[..n] == mtp.state.phase.staged;
      rc := CommitBlock(n);
    }

    /** prefill_token: one prompt token on both sides; the result is the target's next greedy token. */
    method PrefillToken(token: Token, ghost first: Hidden) returns (rc: Status, next: Token)
      requires Valid() && target.state.staged.None? && !mtp.state.phase.Open?
      modifies this`poisoned, this`index, this`faulted, target, mtp, pending
      ensures Valid() && target.state.staged.None? && (old(poisoned) ==> poisoned)
      ensures !poisoned ==> !mtp.state.phase.Open?
      ensures old(InStep(first)) && !poisoned ==> InStep(first)
      ensures !poisoned ==> (SamePosition() <==> old(SamePosition()))
      ensures rc == Ok ==> target.state.committed == old(target.state).committed + [token] && next == target.lm.next(target.state.committed)
      ensures rc != Ok && !poisoned ==> target.state.committed == old(target.state).committed && mtp.state.cache == old(mtp.state).cache
      ensures old(Trouble()) ==> Trouble()
      ensures rc != Ok ==> Trouble() || old(poisoned || !mtp.state.phase.Idle? || !SamePosition()) || token >= VOCAB
    {
      next := 0;
      if token >= VOCAB { return InvalidArgument, next; }
      var capable: bool := *;
      faulted := faulted || !capable;
      if poisoned || !capable || !SamePosition() { return Runtime, next; }
      var selected: bool := *;
      faulted := faulted || !selected;
      if !selected { return Cuda, next; }
      rc := target.Begin();
      var ids, hidden, taps;
      if rc == Ok { rc, ids, hidden, taps := target.Forward([token]); }
      if rc == Ok {
        var capture: Status := *;
        faulted := faulted || capture != Ok;
        rc := capture;
      }
      if rc != Ok {
        GiveUp(rc, false);
        return;
      }
      rc := TakeBlock([token], hidden, 1);
      if rc == Ok {
        assert [token][..1] == [token];
        next := ids[0];
        if old(InStep(first)) {
          TookAligned(target.lm, first, old(target.state), old(mtp.state), old(pending[index]), [token], 1,
                      target.state, mtp.state, pending[index]);
        }
      }
    }

    // ---------------------------------------------------------------------- step

    /** The test of the reported acceptance passes exactly when the reported prefix is the longest matching one. */
    method CheckAccepted(drafts: seq<Token>, ids: seq<Token>, snapshot: nat, reported: nat, reportedSnapshot: nat, after: nat)
      returns (ok: bool)
      requires |drafts| == DRAFT_TOKENS && |ids| == VERIFY_WIDTH
      ensures ok <==> reportedSnapshot == snapshot && after == snapshot + VERIFY_WIDTH && reported == LongestPrefix(drafts, ids)
    {
      if reportedSnapshot != snapshot || reported > DRAFT_TOKENS || after != snapshot + VERIFY_WIDTH { return false; }
      ok := true;
      for i := 0 to DRAFT_TOKENS
        invariant ok <==> (forall j :: 0 <= j < i && j < reported ==> drafts[j] == ids[j])
                          && (reported < i ==> drafts[reported] != ids[reported])
      {
        if (i < reported && ids[i] != drafts[i]) || (i == reported && reported < DRAFT_TOKENS && ids[i] == drafts[i]) {
          ok := false;
        }
      }
      LongestPrefixIff(drafts, ids, reported);
    }

    /** Seven chained draft forwards; whatever they propose, only staged pairs change. */
    method DraftAll(anchor: Token) returns (rc: Status, drafts: seq<Token>)
      requires Valid() && mtp.state.phase == Open([]) && |mtp.state.cache| == |target.state.committed|
      modifies mtp, this`faulted
      ensures mtp.state.cache == old(mtp.state).cache
      ensures rc == Ok ==> |drafts| == DRAFT_TOKENS
      ensures old(Trouble()) ==> Trouble()
      ensures rc != Ok ==> Trouble()
    {
      var token, prior := anchor, pending[index];
      drafts, rc := [], Ok;
      for i := 0 to DRAFT_TOKENS
        invariant mtp.state.cache == old(mtp.state).cache && |drafts| == i
        invariant mtp.state.phase.Open? && |mtp.state.phase.staged| == i && (old(Trouble()) ==> Trouble())
      {
        var top, hidden: Hidden := [], *;
        rc, top := mtp.Forward([token], [prior], |target.state.committed| + i);
        if rc != Ok { return; }
        drafts := drafts + [top[0]];
        token, prior := top[0], hidden;
      }
      var copied: Status := *;
      faulted := faulted || copied != Ok;
      rc := copied;
    }

    /** Draft, verify and check; on success the draft's transaction is still to be dropped. */
    method Propose(anchor: Token) returns (rc: Status, open: bool, drafts: seq<Token>, ids: seq<Token>, hidden: seq<Hidden>, accepted: nat)
      requires Valid() && target.state.staged.None? && !mtp.state.phase.Open? && SamePosition()
      modifies target, mtp, this`faulted
      ensures target.state.committed == old(target.state).committed && mtp.state.cache == old(mtp.state).cache
      ensures open || !mtp.state.phase.Open?
      ensures rc == Ok ==> open && |drafts| == DRAFT_TOKENS && target.state.staged == Some([anchor] + drafts)
      ensures rc == Ok ==> ids == Rows(target.lm.next, target.state.committed, [anchor] + drafts) && accepted == LongestPrefix(drafts, ids)
      ensures rc == Ok ==> hidden == Rows(target.lm.hidden, target.state.committed, [anchor] + drafts)
      ensures old(Trouble()) ==> Trouble()
      ensures rc != Ok ==> Trouble() || !old(mtp.state).phase.Idle?
    {
      open, drafts, ids, hidden, accepted := false, [], [], [], 0;
      var snapshot := |target.state.committed|;
      rc := *;
      faulted := faulted || rc != Ok;
      if rc != Ok { return; }
      rc := mtp.Begin(snapshot);
      open := rc == Ok;
      if rc != Ok { return; }
      rc, drafts := DraftAll(anchor);
      if rc != Ok { return; }
      rc := target.Begin();
      if rc != Ok { return; }
      var taps;
      rc, ids, hidden, taps := target.Forward([anchor] + drafts);
      if rc != Ok { return; }
      var capture: Status, reportedSnapshot: nat, after: nat := *, *, *;
      accepted := *;
      ghost var honest := reportedSnapshot == snapshot && after == snapshot + VERIFY_WIDTH && accepted == LongestPrefix(drafts, ids);
      faulted := faulted || capture != Ok || !honest;
      if capture != Ok { return capture, open, drafts, ids, hidden, accepted; }
      var ok := CheckAccepted(drafts, ids, snapshot, accepted, reportedSnapshot, after);
      if !ok { return Runtime, open, drafts, ids, hidden, accepted; }
      rc := *;
      faulted := faulted || rc != Ok;
    }

    /** The proposal's own staged pairs are dropped and the verified ones taken in their place. */
    method Accept(anchor: Token, drafts: seq<Token>, ids: seq<Token>, hidden: seq<Hidden>, accepted: nat, ghost first: Hidden)
      returns (rc: Status, r: Option<StepResult>)
      requires Valid() && !poisoned && SamePosition() && |drafts| == DRAFT_TOKENS && target.state.staged == Some([anchor] + drafts)
      requires ids == Rows(target.lm.next, target.state.committed, [anchor] + drafts) && accepted == LongestPrefix(drafts, ids)
      requires hidden == Rows(target.lm.hidden, target.state.committed, [anchor] + drafts)
      modifies this`poisoned, this`index, this`faulted, target, mtp, pending
      ensures Valid() && target.state.staged.None? && (!poisoned ==> !mtp.state.phase.Open? && SamePosition())
      ensures old(Followed(first)) && !poisoned ==> InStep(first)
      ensures rc == Ok <==> r.Some?
      ensures rc == Ok ==> !poisoned && mtp.state.phase.Idle? && |mtp.state.cache| == r.value.after
      ensures rc == Ok ==> Stepped(target.lm, old(target.state).committed, target.state.committed, anchor, r.value)
      ensures rc != Ok && !poisoned ==> target.state.committed == old(target.state).committed && mtp.state.cache == old(mtp.state).cache
      ensures old(Trouble()) || rc != Ok ==> Trouble()
    {
      r := None;
      var snapshot := |target.state.committed|;
      rc := mtp.Abort();
      if rc != Ok {
        GiveUp(rc, false);
        return;
      }
      rc := TakeBlock([anchor] + drafts, hidden, 1 + accepted);
      if rc != Ok { return; }
      BlockSteps(target.lm, old(target.state).committed, anchor, drafts, ids, accepted);
      if old(Followed(first)) {
        TookAligned(target.lm, first, old(target.state), old(mtp.state), old(pending[index]), [anchor] + drafts, 1 + accepted,
                    target.state, mtp.state, pending[index]);
      }
      r := Some(ResultOf(snapshot, drafts, ids, accepted));
    }

    /**
     mtp_speculative_step: on success the emitted tokens are greedy decoding from the anchor and both
     sides advance by one plus the accepted prefix; on failure nothing moves or all is poisoned.
     */
    method Step(anchor: Token, ghost first: Hidden) returns (rc: Status, r: Option<StepResult>)
      requires Valid() && target.state.staged.None? && !mtp.state.phase.Open?
      modifies this`poisoned, this`index, this`faulted, target, mtp, pending
      ensures Valid() && target.state.staged.None? && (old(poisoned) ==> poisoned)
      ensures !poisoned ==> !mtp.state.phase.Open?
      ensures old(InStep(first)) && !poisoned ==> InStep(first)
      ensures !poisoned ==> (SamePosition() <==> old(SamePosition()))
      ensures rc == Ok <==> r.Some?
      ensures rc == Ok ==> !poisoned && Stepped(target.lm, old(target.state).committed, target.state.committed, anchor, r.value)
      ensures rc == Ok ==> |mtp.state.cache| == r.value.after
      ensures rc != Ok && !poisoned ==> target.state.committed == old(target.state).committed && mtp.state.cache == old(mtp.state).cache
      ensures old(Trouble()) ==> Trouble()
      ensures rc != Ok ==> Trouble() || old(poisoned || !mtp.state.phase.Idle? || !SamePosition()) || anchor >= VOCAB
      ensures rc == Ok ==> mtp.state.phase.Idle?
    {
      r := None;
      if anchor >= VOCAB { return InvalidArgument, r; }
      var capable: bool, device: bool := *, *;
      faulted := faulted || !capable || !device;
      if poisoned || !capable || !SamePosition() { return Runtime, r; }
      if !device { return Cuda, r; }
      var open, drafts, ids, hidden, accepted;
      rc, open, drafts, ids, hidden, accepted := Propose(anchor);
      if rc != Ok {
        GiveUp(rc, open);
        return;
      }
      rc, r := Accept(anchor, drafts, ids, hidden, accepted, first);
    }

    /** Lossless over whole runs: steps chained through their continuation tokens, until one fails. */
    method Decode(anchor: Token, steps: nat, ghost first: Hidden) returns (emitted: seq<Token>, last: Token, done: nat)
      requires Valid() && InStep(first)
      modifies this`poisoned, this`index, this`faulted, target, mtp, pending
      ensures Valid() && emitted == Greedy(target.lm, old(target.state).committed + [anchor], |emitted|) && |emitted| >= done
      ensures !poisoned ==> InStep(first)
      ensures !poisoned ==> target.state.committed + [last] == old(target.state).committed + [anchor] + emitted
      ensures done <= steps && (done == steps > 0 ==> !poisoned)
      ensures done < steps ==> Trouble() || old(poisoned || !mtp.state.phase.Idle?) || !Worded(target.lm) || anchor >= VOCAB
    {
      emitted, last, done := [], anchor, 0;
      ghost var start := target.state.committed + [anchor];
      while done < steps
        invariant Valid() && done <= steps && target.state.staged.None? && |emitted| >= done
        invariant emitted == Greedy(target.lm, start, |emitted|)
        invariant !poisoned ==> InStep(first) && start + emitted == target.state.committed + [last]
        invariant done > 0 ==> !poisoned && mtp.state.phase.Idle?
        invariant done == 0 ==> last == anchor && poisoned == old(poisoned) && mtp.state == old(mtp.state)
        invariant Worded(target.lm) && done > 0 ==> last < VOCAB
      {
        if poisoned { return; }
        ghost var history := target.state.committed;
        var rc, r := Step(last, first);
        if rc != Ok { return; }
        ContinuationWorded(target.lm, history, target.state.committed, last, r.value);
        ChainStep(target.lm, start, emitted, history, last, r.value.emitted);
        emitted, last, done := emitted + r.value.emitted, r.value.continuation, done + 1;
      }
    }
  }
}
