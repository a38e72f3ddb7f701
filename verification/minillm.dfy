/**
  The patch arithmetic of the small vision model: an image (a flat
  sequence of pixels) is cut into consecutive patches of `patchDim`
  values, and the constructor derives `patchDim` and the expected patch
  count from the image width and the patch width. The embedding,
  transformer and classifier that follow are numeric and not modelled.
 */
module MiniLlm {
  import opened Base

  /** The sizes the constructor fixes; `numPatches` is None when JavaScript's division yields NaN or Infinity. */
  datatype Geometry = Geometry(inputDim: nat, patchSize: nat, patchDim: nat, numPatches: Option<real>)

  /** `new MiniLLM(inputDim, patchSize, numClasses)`, as far as sizes go. */
  function NewGeometry(inputDim: nat, patchSize: nat): (g: Geometry)
    ensures g.inputDim == inputDim && g.patchSize == patchSize
    ensures g.patchDim == patchSize * patchSize
    ensures g.numPatches.Some? <==> patchSize > 0
    ensures patchSize > 0 ==> g.numPatches.value * (g.patchDim as real) == (inputDim * inputDim) as real
  {
    var patchDim := patchSize * patchSize;
    Geometry(inputDim, patchSize, patchDim,
             if patchDim == 0 then None else Some((inputDim * inputDim) as real / patchDim as real))
  }

  /** `image.slice(i, i + d)` repeated for i = 0, d, 2d, … while i < |image|. */
  function Chunks(image: seq<real>, d: nat): (ps: seq<seq<real>>)
    requires d > 0
    decreases |image|
  {
    if image == [] then []
    else if |image| <= d then [image]
    else [image[..d]] + Chunks(image[d..], d)
  }

  /** The patches laid end to end. */
  function Flatten(ps: seq<seq<real>>): seq<real> {
    if ps == [] then [] else ps[0] + Flatten(ps[1..])
  }

  /**
    `embedPatches(image)`: the image cut into patches of `patchDim`
    values. With `patchDim` 0 the loop index never advances, so a
    non-empty image makes the call run forever.
   */
  function EmbedPatches(image: seq<real>, patchDim: nat): (r: Result<seq<seq<real>>>)
    ensures r.Err? <==> patchDim == 0 && |image| > 0
    ensures r.Err? ==> r.error == Hang
    ensures r.Ok? && |image| == 0 ==> r.value == []
    ensures r.Ok? && patchDim > 0 ==> r.value == Chunks(image, patchDim)
  {
    if |image| == 0 then Ok([])
    else if patchDim == 0 then Err(Hang)
    else Ok(Chunks(image, patchDim))
  }

  /** Concatenating the patches gives back the image. */
  lemma {:induction false} ChunksFlatten(image: seq<real>, d: nat)
    requires d > 0
    ensures Flatten(Chunks(image, d)) == image
    decreases |image|
  {
    if image == [] {
    } else if |image| <= d {
      assert Flatten([image]) == image + Flatten([]);
    } else {
      var ps := Chunks(image, d);
      assert ps[1..] == Chunks(image[d..], d);
      ChunksFlatten(image[d..], d);
      assert image == image[..d] + image[d..];
    }
  }

  /** Every patch but the last has `d` values and the last has between 1 and `d`. */
  lemma {:induction false} ChunkSizes(image: seq<real>, d: nat)
    requires d > 0
    ensures var ps := Chunks(image, d);
      && (forall k | 0 <= k < |ps| - 1 :: |ps[k]| == d)
      && (|ps| > 0 ==> 1 <= |ps[|ps| - 1]| <= d)
    decreases |image|
  {
    if image != [] && |image| > d {
      var ps := Chunks(image, d);
      var rest := Chunks(image[d..], d);
      ChunkSizes(image[d..], d);
      assert ps == [image[..d]] + rest;
      assert forall k | 1 <= k < |ps| :: ps[k] == rest[k - 1];
      assert image[d..] != [];
    }
  }

  /**
    The number of patches is ⌈|image| / d⌉, stated without division: the
    patches cover the image and one patch fewer would not.
   */
  lemma {:induction false} ChunkCount(image: seq<real>, d: nat)
    requires d > 0
    ensures var c := |Chunks(image, d)|;
      |image| <= c * d < |image| + d
    decreases |image|
  {
    if image != [] && |image| > d {
      var c := |Chunks(image[d..], d)|;
      ChunkCount(image[d..], d);
      assert (c + 1) * d == c * d + d;
    }
  }

  /**
    When the patch width divides the image width, an image of
    `inputDim`² pixels is cut into exactly `numPatches` patches.
   */
  lemma PatchCountMatches(inputDim: nat, patchSize: nat, image: seq<real>)
    requires patchSize > 0 && inputDim % patchSize == 0
    requires |image| == inputDim * inputDim
    ensures var g := NewGeometry(inputDim, patchSize);
      var r := EmbedPatches(image, g.patchDim);
      r.Ok? && g.numPatches == Some(|r.value| as real)
  {
    var g := NewGeometry(inputDim, patchSize);
    var k := inputDim / patchSize;
    var d := patchSize * patchSize;
    assert inputDim == k * patchSize;
    assert |image| == (k * k) * d by {
      assert inputDim * inputDim == (k * patchSize) * (k * patchSize);
    }
    assert d > 0;
    ExactChunks(image, d, k * k);
    if |image| == 0 {
      assert k == 0;
    }
    assert g.numPatches.value * (d as real) == ((k * k) as real) * (d as real);
  }

  /** An image of m·d values falls into exactly m full patches. */
  lemma {:induction false} ExactChunks(image: seq<real>, d: nat, m: nat)
    requires d > 0 && |image| == m * d
    ensures |Chunks(image, d)| == m
    decreases m
  {
    if m > 1 {
      assert |image[d..]| == (m - 1) * d;
      ExactChunks(image[d..], d, m - 1);
    } else if m == 1 {
      assert |image| == d;
    }
  }
}
