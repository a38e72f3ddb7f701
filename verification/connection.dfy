/** A directed, weighted and optionally gated edge, and the innovation key of an edge. */
module Connections {
  import opened Base

  /**
    An edge between two arena nodes. `gater` is the gating node, if any;
    `xtraceNodes`/`xtraceValues` are the parallel arrays of the extended
    trace.
   */
  datatype Connection = Connection(
    from: nat,
    to: nat,
    weight: real,
    gain: real,
    gater: Option<nat>,
    eligibility: real,
    previousDeltaWeight: real,
    totalDeltaWeight: real,
    xtraceNodes: seq<nat>,
    xtraceValues: seq<real>)

  /**
    `new Connection(from, to, weight)`. When no weight is given the source
    draws one at random; `draw` stands for that value.
   */
  function New(from: nat, to: nat, weight: Option<real>, draw: real): (c: Connection)
    ensures c.from == from && c.to == to
    ensures weight.Some? ==> c.weight == weight.value
    ensures weight.None? ==> c.weight == draw
    ensures c.gain == 1.0 && c.gater == None && c.eligibility == 0.0
    ensures c.previousDeltaWeight == 0.0 && c.totalDeltaWeight == 0.0
    ensures c.xtraceNodes == [] && c.xtraceValues == []
  {
    Connection(from, to, weight.GetOr(draw), 1.0, None, 0.0, 0.0, 0.0, [], [])
  }

  /** The serialised form of a connection: its weight alone. */
  datatype ConnectionJson = ConnectionJson(weight: real)

  function ToJson(c: Connection): (j: ConnectionJson)
    ensures j.weight == c.weight
  {
    ConnectionJson(c.weight)
  }

  /** A weight supplied at construction, zero included, is the weight serialised. */
  lemma SuppliedWeightSerialised(from: nat, to: nat, w: real, draw: real)
    ensures ToJson(New(from, to, Some(w), draw)).weight == w
  {
  }

  /** The triangular number w(w+1)/2, defined by its recurrence. */
  function Tri(w: nat): nat {
    if w == 0 then 0 else Tri(w - 1) + w
  }

  lemma {:induction false} TriClosedForm(w: nat)
    ensures 2 * Tri(w) == w * (w + 1)
  {
    if w > 0 {
      TriClosedForm(w - 1);
    }
  }

  lemma {:induction false} TriMonotone(v: nat, w: nat)
    requires v <= w
    ensures Tri(v) <= Tri(w)
  {
    if v < w {
      TriMonotone(v, w - 1);
    }
  }

  /** `innovationID(a, b) = 0.5 * (a + b) * (a + b + 1) + b`, the Cantor pairing of (a, b). */
  function InnovationId(a: nat, b: nat): nat {
    (a + b) * (a + b + 1) / 2 + b
  }

  /** The pairing is the triangular number of a + b, offset by b. */
  lemma InnovationIdIsTriangular(a: nat, b: nat)
    ensures InnovationId(a, b) == Tri(a + b) + b
  {
    TriClosedForm(a + b);
  }

  /**
    The source computes the key in floating point as half a product; the
    product of two consecutive naturals is even, so the half is the exact
    natural the model uses.
   */
  lemma InnovationIdIsExact(a: nat, b: nat)
    ensures InnovationId(a, b) as real == 0.5 * ((a + b) * (a + b + 1)) as real + b as real
    ensures InnovationId(a, b) >= a + b
  {
    var w := a + b;
    TriClosedForm(w);
    assert (w * (w + 1)) / 2 == Tri(w);
    assert Tri(w) as real == 0.5 * (w * (w + 1)) as real;
    if w > 0 {
      TriMonotone(1, w);
      assert Tri(w) == Tri(w - 1) + w;
    }
  }

  /** Each key lies between Tri(a + b) and Tri(a + b + 1), exclusive above. */
  lemma InnovationIdBand(a: nat, b: nat)
    ensures Tri(a + b) <= InnovationId(a, b) < Tri(a + b + 1)
  {
    InnovationIdIsTriangular(a, b);
  }

  /** Cantor pairing is injective: the key determines the ordered pair. */
  lemma InnovationIdInjective(a: nat, b: nat, c: nat, d: nat)
    requires InnovationId(a, b) == InnovationId(c, d)
    ensures a == c && b == d
  {
    InnovationIdBand(a, b);
    InnovationIdBand(c, d);
    if a + b < c + d {
      TriMonotone(a + b + 1, c + d);
    } else if c + d < a + b {
      TriMonotone(c + d + 1, a + b);
    }
    assert a + b == c + d;
    InnovationIdIsTriangular(a, b);
    InnovationIdIsTriangular(c, d);
  }

  /** Direction is part of the key: reversing a non-loop edge changes it. */
  lemma InnovationIdDirected(a: nat, b: nat)
    requires a != b
    ensures InnovationId(a, b) != InnovationId(b, a)
  {
    if InnovationId(a, b) == InnovationId(b, a) {
      InnovationIdInjective(a, b, b, a);
    }
  }
}
