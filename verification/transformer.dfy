/**
  The integer and sequence parts of the transformer model: the token
  embedding guard, the parameter count, greedy decoding and `argmax`.
  The forward pass is numeric; greedy decoding takes the next-token choice
  as a function of the tokens generated so far.
 */
module Transformer {
  import opened Base

  /** The first position in `tokens` that `embedTokens` rejects, or |tokens|. */
  function FirstBad(tokens: seq<int>, vocab: nat): (i: nat)
    ensures i <= |tokens|
    ensures forall k | 0 <= k < i :: 0 <= tokens[k] < vocab
    ensures i < |tokens| ==> !(0 <= tokens[i] < vocab)
  {
    if tokens == [] then 0
    else if !(0 <= tokens[0] < vocab) then 0
    else 1 + FirstBad(tokens[1..], vocab)
  }

  /**
    `embedTokens(tokens, embedding)`: each token is replaced by a copy of
    its embedding row. The tokens are mapped in order and the first bad
    one decides the outcome: a token at or beyond the vocabulary throws,
    and a negative token reads a missing row, whose spread throws a
    TypeError. The embedding has one row per vocabulary entry.
   */
  function EmbedTokens(tokens: seq<int>, vocab: nat, embedding: seq<seq<real>>): (r: Result<seq<seq<real>>>)
    requires |embedding| == vocab
    ensures r.Ok? <==> forall k | 0 <= k < |tokens| :: 0 <= tokens[k] < vocab
    ensures r.Ok? ==> |r.value| == |tokens| && forall k | 0 <= k < |tokens| :: r.value[k] == embedding[tokens[k]]
    ensures r.Err? ==>
      var i := FirstBad(tokens, vocab);
      r.error == (if tokens[i] >= vocab as int then TokenOutOfVocabulary else Undefined)
  {
    var i := FirstBad(tokens, vocab);
    if i < |tokens| then
      Err(if tokens[i] >= vocab as int then TokenOutOfVocabulary else Undefined)
    else
      Ok(seq(|tokens|, k requires 0 <= k < |tokens| => embedding[tokens[k]]))
  }

  /** The model's sizes that enter the parameter count. */
  datatype Config = Config(vocabSize: nat, dModel: nat, numLayers: nat, dFF: nat)

  /** Parameters of one encoder layer: attention 4d², feed-forward 2d·dFF + d + dFF, two norms 4d. */
  function EncoderLayerParams(c: Config): nat {
    4 * c.dModel * c.dModel + 2 * c.dModel * c.dFF + c.dModel + c.dFF + 4 * c.dModel
  }

  /** Parameters of one decoder layer: two attentions 8d², feed-forward 2d·dFF + d + dFF, three norms 6d. */
  function DecoderLayerParams(c: Config): nat {
    8 * c.dModel * c.dModel + 2 * c.dModel * c.dFF + c.dModel + c.dFF + 6 * c.dModel
  }

  /** `getParameterCount()`: the two embeddings and the output projection, then every encoder and decoder layer. */
  function ParameterCount(c: Config): nat {
    var count := 0;
    var count := count + c.vocabSize * c.dModel * 2;
    var count := count + c.vocabSize * c.dModel;
    var count := count + c.numLayers * EncoderLayerParams(c);
    count + c.numLayers * DecoderLayerParams(c)
  }

  /** The count in closed form: 3·V·d + L·(12d² + 4d·dFF + 12d + 2dFF). */
  lemma ParameterCountClosedForm(c: Config)
    ensures ParameterCount(c) ==
      3 * c.vocabSize * c.dModel
      + c.numLayers * (12 * c.dModel * c.dModel + 4 * c.dModel * c.dFF + 12 * c.dModel + 2 * c.dFF)
  {
    var (v, d, l, f) := (c.vocabSize, c.dModel, c.numLayers, c.dFF);
    assert EncoderLayerParams(c) + DecoderLayerParams(c) == 12 * d * d + 4 * d * f + 12 * d + 2 * f;
    assert l * EncoderLayerParams(c) + l * DecoderLayerParams(c) == l * (EncoderLayerParams(c) + DecoderLayerParams(c));
  }

  /** The largest value of a non-empty sequence. */
  function Max(arr: seq<real>): (m: real)
    requires |arr| > 0
    ensures m in arr
    ensures forall k | 0 <= k < |arr| :: arr[k] <= m
  {
    if |arr| == 1 then arr[0]
    else
      var rest := Max(arr[1..]);
      assert forall k | 1 <= k < |arr| :: arr[k] == arr[1..][k - 1];
      if arr[0] >= rest then arr[0] else rest
  }

  /**
    `argmax(arr)`, as `arr.indexOf(Math.max(...arr))`: the first position
    holding the largest value, and -1 for an empty array (the maximum of
    nothing is -Infinity, which no entry equals).
   */
  method Argmax(arr: seq<real>) returns (i: int)
    ensures arr == [] <==> i == -1
    ensures arr != [] ==>
      && 0 <= i < |arr|
      && (forall k | 0 <= k < |arr| :: arr[k] <= arr[i])
      && (forall k | 0 <= k < i :: arr[k] < arr[i])
  {
    if arr == [] {
      return -1;
    }
    var m := arr[0];
    var j := 1;
    while j < |arr|
      invariant 1 <= j <= |arr|
      invariant m in arr[..j]
      invariant forall k | 0 <= k < j :: arr[k] <= m
    {
      if arr[j] > m {
        m := arr[j];
      }
      j := j + 1;
    }
    i := 0;
    while arr[i] != m
      invariant 0 <= i < |arr|
      invariant m in arr[i..]
      invariant forall k | 0 <= k < i :: arr[k] != m
      decreases |arr| - i
    {
      i := i + 1;
    }
    assert forall k | 0 <= k < i :: arr[k] < arr[i];
  }

  /**
    `generateSequence(inputTokens, startToken, endToken, maxLength)`:
    starting from `startToken`, up to `maxLength` tokens are appended,
    each one chosen by `next` from the tokens so far (the model's
    `argmax` over its predicted distribution); generation stops right
    after the end token is produced.
   */
  method GenerateSequence(start: int, end: int, maxLength: int, next: seq<int> -> int)
    returns (generated: seq<int>)
    ensures |generated| >= 1 && generated[0] == start
    ensures |generated| <= (if maxLength > 0 then maxLength else 0) + 1
    ensures forall k | 1 <= k < |generated| :: generated[k] == next(generated[..k])
    ensures forall k | 1 <= k < |generated| - 1 :: generated[k] != end
    ensures |generated| < (if maxLength > 0 then maxLength else 0) + 1 ==> |generated| > 1 && generated[|generated| - 1] == end
  {
    generated := [start];
    var i := 0;
    while i < maxLength
      invariant 0 <= i && (maxLength > 0 ==> i <= maxLength) && (maxLength <= 0 ==> i == 0)
      invariant |generated| == i + 1 && generated[0] == start
      invariant forall k | 1 <= k < |generated| :: generated[k] == next(generated[..k])
      invariant forall k | 1 <= k < |generated| :: generated[k] != end
      decreases maxLength - i
    {
      var token := next(generated);
      var before := generated;
      generated := generated + [token];
      assert forall k | 1 <= k < |before| :: generated[..k] == before[..k];
      assert generated[..|before|] == before;
      if token == end {
        return;
      }
      i := i + 1;
    }
  }
}
