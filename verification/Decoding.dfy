/**
 Decoding one request alone, on a private contiguous cache: the reference that the batching
 engine of tools/axiom_engine.cpp refines.
 */
module Decoding {
  type Token = nat

  /** Keys and values of one position, over all layers. */
  type Kv = seq<real>

  datatype Sampling = Sampling(temperature: real, topK: int, topP: real)

  /** The family hooks: what a token adds to a cache, the logits a cache gives, and sampling. */
  datatype Model = Model(
    kv: (seq<Kv>, Token) -> Kv,
    logits: seq<Kv> -> seq<real>,
    sample: (seq<real>, Sampling, nat) -> (Token, nat),
    eos: seq<Token>)

  datatype Request = Request(
    prompt: seq<Token>, sampling: Sampling, seed: nat, maxNew: nat, outCap: int, useEos: bool)

  ghost predicate HasLogits(m: Model) {
    forall cache :: |m.logits(cache)| > 0
  }

  // -------------------------------------------------------------------- greedy choice

  function ArgMax(lg: seq<real>): (r: nat)
    requires |lg| > 0
    ensures r < |lg|
  {
    if |lg| == 1 then 0
    else
      var a := ArgMax(lg[..|lg| - 1]);
      if lg[|lg| - 1] > lg[a] then |lg| - 1 else a
  }

  /** The first index of the largest logit. */
  lemma {:induction false} ArgMaxIsFirstMaximum(lg: seq<real>, j: nat)
    requires j < |lg|
    ensures lg[j] <= lg[ArgMax(lg)] && (j < ArgMax(lg) ==> lg[j] < lg[ArgMax(lg)])
  {
    if |lg| > 1 {
      var init := lg[..|lg| - 1];
      ArgMaxIsFirstMaximum(init, ArgMax(init));
      if j < |init| { ArgMaxIsFirstMaximum(init, j); }
    }
  }

  method FindArgMax(lg: seq<real>) returns (best: nat)
    requires |lg| > 0
    ensures best == ArgMax(lg)
  {
    best := 0;
    var bestValue := lg[0];
    assert lg[..1] == [lg[0]];
    for j := 1 to |lg|
      invariant best == ArgMax(lg[..j]) && bestValue == lg[best]
    {
      assert lg[..j + 1][..j] == lg[..j];
      if lg[j] > bestValue { best, bestValue := j, lg[j]; }
    }
    assert lg[..|lg|] == lg;
  }

  function Pick(m: Model, sampling: Sampling, lg: seq<real>, rng: nat): (Token, nat)
    requires |lg| > 0
  {
    if sampling.temperature > 0.0 then m.sample(lg, sampling, rng) else (ArgMax(lg), rng)
  }

  function InitialRng(seed: nat): nat {
    if seed != 0 then (seed * 2654435761 + 0x9E3779B97F4A7C15) % 0x1_0000_0000_0000_0000
    else 0x9E3779B97F4A7C15
  }

  // -------------------------------------------------------------------- the solo run

  /** The cache a token history leaves behind. */
  function Kvs(m: Model, tokens: seq<Token>): (r: seq<Kv>)
    ensures |r| == |tokens|
  {
    if tokens == [] then []
    else
      var cache := Kvs(m, tokens[..|tokens| - 1]);
      cache + [m.kv(cache, tokens[|tokens| - 1])]
  }

  lemma KvsAppend(m: Model, tokens: seq<Token>, t: Token)
    ensures Kvs(m, tokens + [t]) == Kvs(m, tokens) + [m.kv(Kvs(m, tokens), t)]
  {
    assert (tokens + [t])[..|tokens|] == tokens;
  }

  /** Entries depend on the tokens before them only. */
  lemma {:induction false} KvsPrefix(m: Model, tokens: seq<Token>, n: nat)
    requires n <= |tokens|
    ensures Kvs(m, tokens)[..n] == Kvs(m, tokens[..n])
  {
    if n < |tokens| {
      var init := tokens[..|tokens| - 1];
      KvsPrefix(m, init, n);
      assert init[..n] == tokens[..n];
      assert Kvs(m, tokens)[..|init|] == Kvs(m, init);
    } else {
      assert tokens[..n] == tokens;
    }
  }

  datatype Progress = Progress(out: seq<Token>, rng: nat, cache: seq<Kv>, done: bool)

  function SoloStart(m: Model, req: Request): Progress {
    Progress([], InitialRng(req.seed), Kvs(m, req.prompt), req.prompt == [])
  }

  ghost function SoloStep(m: Model, req: Request, p: Progress): Progress
    requires HasLogits(m)
  {
    if p.done then p
    else if |p.out| >= req.outCap then p.(done := true)
    else
      var (t, rng) := Pick(m, req.sampling, m.logits(p.cache), p.rng);
      var out := p.out + [t];
      if (req.useEos && t in m.eos) || |out| >= req.maxNew then Progress(out, rng, p.cache, true)
      else Progress(out, rng, p.cache + [m.kv(p.cache, t)], false)
  }

  ghost function SoloRun(m: Model, req: Request, n: nat): Progress
    requires HasLogits(m)
  {
    if n == 0 then SoloStart(m, req) else SoloStep(m, req, SoloRun(m, req, n - 1))
  }

  /** The solo cache is always that of a prefix of prompt and output, all of it while running. */
  lemma {:induction false} SoloCacheIsHistory(m: Model, req: Request, n: nat)
    requires HasLogits(m)
    ensures var p := SoloRun(m, req, n);
            && |req.prompt| <= |p.cache| <= |req.prompt| + |p.out|
            && p.cache == Kvs(m, (req.prompt + p.out)[..|p.cache|])
            && (!p.done ==> |p.cache| == |req.prompt| + |p.out|)
  {
    if n == 0 {
      assert req.prompt + [] == req.prompt;
      assert req.prompt[..|req.prompt|] == req.prompt;
    } else {
      SoloCacheIsHistory(m, req, n - 1);
      var p, p' := SoloRun(m, req, n - 1), SoloRun(m, req, n);
      if p'.out != p.out {
        var t := p'.out[|p.out|];
        assert (req.prompt + p'.out)[..|p.cache|] == (req.prompt + p.out)[..|p.cache|];
        if !p'.done {
          assert (req.prompt + p'.out)[..|p'.cache|] == (req.prompt + p.out) + [t];
          assert (req.prompt + p.out)[..|p.cache|] == req.prompt + p.out;
          KvsAppend(m, req.prompt + p.out, t);
        }
      }
    }
  }

  /** A run stops: its output never exceeds the request's limits. */
  lemma {:induction false} SoloOutputBounded(m: Model, req: Request, n: nat)
    requires HasLogits(m)
    ensures var p := SoloRun(m, req, n);
            && |p.out| <= n
            && (|p.out| <= req.maxNew || (req.maxNew == 0 && |p.out| == 1))
            && (p.out == [] || |p.out| <= req.outCap)
            && (!p.done ==> |p.out| == n && (n == 0 || n < req.maxNew))
  {
    if n > 0 { SoloOutputBounded(m, req, n - 1); }
  }
}
