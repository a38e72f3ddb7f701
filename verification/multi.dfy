/**
  The flat number arrays the multithreading helpers pass to workers: the
  dataset codec (`serializeDataSet` / `deserializeDataSet`) and the
  node-record layout that `activateSerializedNetwork` walks. JavaScript
  arrays of numbers are `seq<real>`; a slot that may hold `undefined`
  is an `Option<real>`. The squash table is a parameter: its functions
  are numeric and not modelled.
 */
module Multi {
  import opened Base

  /** One training sample. */
  datatype Sample = Sample(input: seq<real>, output: seq<real>)

  /** `s[j]`, which is `undefined` past the end. */
  function At(s: seq<real>, j: nat): (v: Option<real>)
    ensures v.Some? <==> j < |s|
    ensures v.Some? ==> v.value == s[j]
  {
    if j < |s| then Some(s[j]) else None
  }

  /** The same read on a sequence that may already hold `undefined`. */
  function Slot(s: seq<Option<real>>, j: nat): (v: Option<real>)
    ensures j < |s| ==> v == s[j]
    ensures j >= |s| ==> v == None
  {
    if j < |s| then s[j] else None
  }

  /** The numbers of `s`, each present. */
  function Lift(s: seq<real>): (r: seq<Option<real>>)
    ensures |r| == |s| && forall j | 0 <= j < |s| :: r[j] == Some(s[j])
  {
    seq(|s|, j requires 0 <= j < |s| => Some(s[j]))
  }

  /** `n` reads of `s` from position 0, as the inner copy loops do. */
  function Cells(s: seq<real>, n: nat): (r: seq<Option<real>>)
    ensures |r| == n && forall j | 0 <= j < n :: r[j] == At(s, j)
  {
    seq(n, j requires 0 <= j < n => At(s, j))
  }

  lemma CellsExact(s: seq<real>)
    ensures Cells(s, |s|) == Lift(s)
  {
  }

  /** The slots one sample contributes: `ni` input reads then `no` output reads. */
  function SampleCells(x: Sample, ni: nat, no: nat): seq<Option<real>> {
    Cells(x.input, ni) + Cells(x.output, no)
  }

  /** The samples' slots laid end to end. */
  function Body(ds: seq<Sample>, ni: nat, no: nat): seq<Option<real>>
    decreases |ds|
  {
    if ds == [] then [] else SampleCells(ds[0], ni, no) + Body(ds[1..], ni, no)
  }

  /**
    `serializeDataSet(dataSet)`: a header with the first sample's input
    and output sizes, then every sample's values under that header. An
    empty dataset has no first sample and the header read throws.
   */
  function Serialize(ds: seq<Sample>): (r: Result<seq<Option<real>>>)
    ensures r.Err? <==> ds == []
    ensures r.Err? ==> r.error == Undefined
    ensures r.Ok? ==>
      && |r.value| >= 2
      && r.value[0] == Some(|ds[0].input| as real)
      && r.value[1] == Some(|ds[0].output| as real)
  {
    if ds == [] then Err(Undefined)
    else
      var ni, no := |ds[0].input|, |ds[0].output|;
      Ok([Some(ni as real), Some(no as real)] + Body(ds, ni, no))
  }

  lemma {:induction false} BodyLength(ds: seq<Sample>, ni: nat, no: nat)
    ensures |Body(ds, ni, no)| == Flat(|ds|, 0, ni + no)
    decreases |ds|
  {
    if ds != [] {
      BodyLength(ds[1..], ni, no);
    }
  }

  /**
    The slot at row-major offset `Flat(k, j, ni + no)` = k·(ni+no) + j of
    the body: input j of sample k when j < ni, output j − ni otherwise.
   */
  lemma {:induction false} BodyAt(ds: seq<Sample>, ni: nat, no: nat, k: nat, j: nat)
    requires k < |ds| && j < ni + no
    ensures Flat(k, j, ni + no) < |Body(ds, ni, no)|
    ensures Body(ds, ni, no)[Flat(k, j, ni + no)] ==
      if j < ni then At(ds[k].input, j) else At(ds[k].output, j - ni)
    decreases k
  {
    var head := SampleCells(ds[0], ni, no);
    var rest := Body(ds[1..], ni, no);
    assert Body(ds, ni, no) == head + rest;
    if k > 0 {
      BodyAt(ds[1..], ni, no, k - 1, j);
      assert ds[k] == ds[1..][k - 1];
    } else if j < ni {
      assert head[j] == Cells(ds[0].input, ni)[j];
    } else {
      assert head[j] == Cells(ds[0].output, no)[j - ni];
    }
  }

  /**
    Where each value lands: input j of sample k at 2 + k·(ni+no) + j and
    output j at 2 + k·(ni+no) + ni + j, reading `undefined` wherever a
    sample is shorter than the first one.
   */
  lemma SerializeLayout(ds: seq<Sample>, k: nat, j: nat)
    requires ds != [] && k < |ds|
    ensures var ni, no := |ds[0].input|, |ds[0].output|;
      var ser := Serialize(ds).value;
      && (j < ni ==> 2 + k * (ni + no) + j < |ser| && ser[2 + k * (ni + no) + j] == At(ds[k].input, j))
      && (j < no ==> 2 + k * (ni + no) + ni + j < |ser| && ser[2 + k * (ni + no) + ni + j] == At(ds[k].output, j))
  {
    var ni, no := |ds[0].input|, |ds[0].output|;
    var ser := Serialize(ds).value;
    assert ser[2..] == Body(ds, ni, no);
    if j < ni {
      BodyAt(ds, ni, no, k, j);
      FlatIsProduct(k, j, ni + no);
    }
    if j < no {
      BodyAt(ds, ni, no, k, ni + j);
      FlatIsProduct(k, ni + j, ni + no);
    }
  }

  /** The serialised length is 2 + n·(ni + no). */
  lemma SerializeLength(ds: seq<Sample>)
    requires ds != []
    ensures |Serialize(ds).value| == 2 + |ds| * (|ds[0].input| + |ds[0].output|)
  {
    var ni, no := |ds[0].input|, |ds[0].output|;
    BodyLength(ds, ni, no);
    FlatIsProduct(|ds|, 0, ni + no);
  }

  /** Whether a real is a natural number, as a header field must be. */
  predicate IsNat(x: real) {
    x >= 0.0 && x.Floor as real == x
  }

  /** The two header fields are present naturals. */
  predicate NatHeader(ser: seq<Option<real>>) {
    |ser| >= 2 && ser[0].Some? && ser[1].Some? && IsNat(ser[0].value) && IsNat(ser[1].value)
  }

  /** `n` reads of `s` from position `start`. */
  function Window(s: seq<Option<real>>, start: nat, n: nat): (r: seq<Option<real>>)
    ensures |r| == n && forall j | 0 <= j < n :: r[j] == Slot(s, start + j)
  {
    seq(n, j requires 0 <= j < n => Slot(s, start + j))
  }

  /**
    The deserialiser's loop over the body: while some slot remains, one
    input array of `ni` reads and one output array of `no` reads (past
    the end they read `undefined`), then the next sample.
   */
  function Groups(body: seq<Option<real>>, ni: nat, no: nat): (r: seq<seq<Option<real>>>)
    requires ni + no > 0
    ensures |r| % 2 == 0
    ensures forall k | 0 <= k < |r| :: |r[k]| == if k % 2 == 0 then ni else no
    decreases |body|
  {
    if body == [] then []
    else
      var rest := Groups(body[if ni + no <= |body| then ni + no else |body|..], ni, no);
      var r := [Window(body, 0, ni), Window(body, ni, no)] + rest;
      assert forall k | 2 <= k < |r| :: r[k] == rest[k - 2];
      r
  }

  /**
    `deserializeDataSet(serializedSet)`: the header gives the sample size;
    the loop runs while i < (length − 2) / sampleSize in JavaScript's
    real division. A missing header makes that bound NaN and the result
    empty; a zero sample size over a non-empty body makes it Infinity,
    and the loop never ends.
   */
  function Deserialize(ser: seq<Option<real>>): (r: Result<seq<seq<Option<real>>>>)
    requires |ser| < 2 || NatHeader(ser)
    ensures r.Err? <==> NatHeader(ser) && ser[0].value + ser[1].value == 0.0 && |ser| > 2
    ensures r.Err? ==> r.error == Hang
    ensures r.Ok? && NatHeader(ser) ==>
      |r.value| % 2 == 0
      && forall k | 0 <= k < |r.value| ::
           |r.value[k]| as real == if k % 2 == 0 then ser[0].value else ser[1].value
    ensures |ser| <= 2 ==> r == Ok([])
  {
    if |ser| < 2 then Ok([])
    else
      var ni, no := ser[0].value.Floor, ser[1].value.Floor;
      if ni + no == 0 then
        if |ser| > 2 then Err(Hang) else Ok([])
      else Ok(Groups(ser[2..], ni, no))
  }

  /** The number of samples read back is ⌈|body| / (ni + no)⌉, stated without division. */
  lemma {:induction false} GroupsCount(body: seq<Option<real>>, ni: nat, no: nat)
    requires ni + no > 0
    ensures var c := |Groups(body, ni, no)| / 2;
      |body| <= c * (ni + no) < |body| + ni + no
    decreases |body|
  {
    if body != [] {
      var s := ni + no;
      var rest := body[if s <= |body| then s else |body|..];
      GroupsCount(rest, ni, no);
      var c := |Groups(rest, ni, no)| / 2;
      assert |Groups(body, ni, no)| / 2 == c + 1;
      assert (c + 1) * s == c * s + s;
    }
  }

  /** The inputs and outputs of the samples, alternating, as the deserialiser returns them. */
  function Interleave(ds: seq<Sample>): (r: seq<seq<Option<real>>>)
    ensures |r| == 2 * |ds|
    ensures forall k | 0 <= k < |ds| :: r[2 * k] == Lift(ds[k].input) && r[2 * k + 1] == Lift(ds[k].output)
    decreases |ds|
  {
    if ds == [] then []
    else
      var rest := Interleave(ds[1..]);
      var r := [Lift(ds[0].input), Lift(ds[0].output)] + rest;
      forall k | 1 <= k < |ds|
        ensures r[2 * k] == Lift(ds[k].input) && r[2 * k + 1] == Lift(ds[k].output)
      {
        var j := k - 1;
        assert 2 * k == 2 * j + 2;
        assert ds[1..][j] == ds[k];
      }
      r
  }

  /** Whether every sample has `ni` inputs and `no` outputs. */
  predicate Uniform(ds: seq<Sample>, ni: nat, no: nat) {
    forall k | 0 <= k < |ds| :: |ds[k].input| == ni && |ds[k].output| == no
  }

  lemma {:induction false} GroupsBody(ds: seq<Sample>, ni: nat, no: nat)
    requires ni + no > 0 && Uniform(ds, ni, no)
    ensures Groups(Body(ds, ni, no), ni, no) == Interleave(ds)
    decreases |ds|
  {
    if ds != [] {
      var b := Body(ds, ni, no);
      var head := SampleCells(ds[0], ni, no);
      assert b == head + Body(ds[1..], ni, no);
      assert |head| == ni + no;
      assert b[ni + no..] == Body(ds[1..], ni, no);
      CellsExact(ds[0].input);
      CellsExact(ds[0].output);
      assert Window(b, 0, ni) == Lift(ds[0].input);
      assert Window(b, ni, no) == Lift(ds[0].output);
      GroupsBody(ds[1..], ni, no);
    }
  }

  /**
    Round trip: when every sample has the first sample's sizes and a
    sample holds at least one value, deserialising the serialised dataset
    gives each sample's input and output, in order.
   */
  lemma RoundTrip(ds: seq<Sample>)
    requires ds != [] && Uniform(ds, |ds[0].input|, |ds[0].output|)
    requires |ds[0].input| + |ds[0].output| > 0
    ensures var ser := Serialize(ds).value;
      NatHeader(ser) && Deserialize(ser) == Ok(Interleave(ds))
  {
    var ni, no := |ds[0].input|, |ds[0].output|;
    var ser := Serialize(ds).value;
    assert ser[2..] == Body(ds, ni, no);
    assert (ni as real).Floor == ni && (no as real).Floor == no;
    GroupsBody(ds, ni, no);
  }

  /** Samples with no values at all do not survive: the sample size is 0 and the loop bound NaN. */
  lemma RoundTripEmptySamples(ds: seq<Sample>)
    requires ds != [] && Uniform(ds, 0, 0)
    ensures Deserialize(Serialize(ds).value) == Ok([])
  {
    var ser := Serialize(ds).value;
    assert |Body(ds, 0, 0)| == 0 by {
      BodyLength(ds, 0, 0);
      FlatIsProduct(|ds|, 0, 0);
    }
    assert |ser| == 2;
  }

  // ---------------------------------------------------------------------
  // The node records of a serialised network.

  /** The value that ends a record's list of incoming terms. */
  const End: real := -2.0

  /** The gater value that stands for "not gated" (gain 1). */
  const NoGater: real := -1.0

  /** One incoming connection: source node, weight and gater. */
  datatype Term = Term(from: real, weight: real, gater: real)

  /** One node: its position, bias, squash number, self-connection weight and gater, then its incoming terms. */
  datatype Record = Record(index: real, bias: real, squash: real, selfWeight: real, selfGater: real, terms: seq<Term>)

  function EncodeTerms(ts: seq<Term>): (d: seq<real>)
    ensures |d| == 3 * |ts| + 1 && d[|d| - 1] == End
    decreases |ts|
  {
    if ts == [] then [End] else [ts[0].from, ts[0].weight, ts[0].gater] + EncodeTerms(ts[1..])
  }

  function EncodeRecord(r: Record): seq<real> {
    [r.index, r.bias, r.squash, r.selfWeight, r.selfGater] + EncodeTerms(r.terms)
  }

  function EncodeRecords(rs: seq<Record>): seq<real>
    decreases |rs|
  {
    if rs == [] then [] else EncodeRecord(rs[0]) + EncodeRecords(rs[1..])
  }

  /** The array `activateSerializedNetwork` reads: input size, output size, then the node records. */
  function Encode(ni: real, no: real, rs: seq<Record>): (d: seq<real>)
    ensures |d| >= 2 && d[0] == ni && d[1] == no
  {
    [ni, no] + EncodeRecords(rs)
  }

  /**
    The inner `while (data[i] !== -2)` loop: triples until the end marker.
    A read past the end is `undefined`, which is never -2, so a record
    without its end marker keeps the loop running forever.
   */
  function ParseTerms(d: seq<real>): (r: Result<(seq<Term>, seq<real>)>)
    ensures r.Err? ==> r.error == Hang
    ensures r.Ok? ==> |r.value.1| < |d|
    ensures r.Ok? ==> d == EncodeTerms(r.value.0) + r.value.1
    decreases |d|
  {
    if d == [] then Err(Hang)
    else if d[0] == End then Ok(([], d[1..]))
    else if |d| < 3 then Err(Hang)
    else
      var p :- ParseTerms(d[3..]);
      Ok(([Term(d[0], d[1], d[2])] + p.0, p.1))
  }

  /** The outer loop: a record's five fields, its terms, then the next record. */
  function ParseRecords(d: seq<real>): (r: Result<seq<Record>>)
    ensures r.Err? ==> r.error == Hang
    ensures r.Ok? ==> d == EncodeRecords(r.value)
    decreases |d|
  {
    if d == [] then Ok([])
    else if |d| < 5 then Err(Hang)
    else
      var p :- ParseTerms(d[5..]);
      var rs :- ParseRecords(p.1);
      var r := Record(d[0], d[1], d[2], d[3], d[4], p.0);
      assert d == EncodeRecord(r) + p.1;
      Ok([r] + rs)
  }

  /** The records of a serialised network; an array shorter than the header has none. */
  function Parse(data: seq<real>): (r: Result<seq<Record>>)
    ensures r.Err? ==> r.error == Hang
    ensures r.Ok? && |data| >= 2 ==> data == Encode(data[0], data[1], r.value)
  {
    if |data| < 2 then Ok([]) else ParseRecords(data[2..])
  }

  /** No term starts with the end marker, so the layout is unambiguous. */
  predicate Unambiguous(rs: seq<Record>) {
    forall k, m | 0 <= k < |rs| && 0 <= m < |rs[k].terms| :: rs[k].terms[m].from != End
  }

  lemma {:induction false} ParseTermsEncode(ts: seq<Term>, rest: seq<real>)
    requires forall m | 0 <= m < |ts| :: ts[m].from != End
    ensures ParseTerms(EncodeTerms(ts) + rest) == Ok((ts, rest))
    decreases |ts|
  {
    if ts != [] {
      var d := EncodeTerms(ts) + rest;
      var tail := EncodeTerms(ts[1..]) + rest;
      assert d == [ts[0].from, ts[0].weight, ts[0].gater] + tail;
      assert d[0] != End && |d| >= 3 && d[3..] == tail;
      ParseTermsEncode(ts[1..], rest);
      assert [Term(d[0], d[1], d[2])] + ts[1..] == ts;
    } else {
      assert (EncodeTerms(ts) + rest)[1..] == rest;
    }
  }

  lemma {:induction false} ParseRecordsEncode(rs: seq<Record>)
    requires Unambiguous(rs)
    ensures ParseRecords(EncodeRecords(rs)) == Ok(rs)
    decreases |rs|
  {
    if rs != [] {
      var r := rs[0];
      var d := EncodeRecords(rs);
      assert d[5..] == EncodeTerms(r.terms) + EncodeRecords(rs[1..]);
      assert forall m | 0 <= m < |r.terms| :: r.terms[m].from != End by {
        forall m | 0 <= m < |r.terms| ensures r.terms[m].from != End {
          assert rs[0].terms[m].from != End;
        }
      }
      ParseTermsEncode(r.terms, EncodeRecords(rs[1..]));
      assert Unambiguous(rs[1..]) by {
        forall k, m | 0 <= k < |rs[1..]| && 0 <= m < |rs[1..][k].terms| ensures rs[1..][k].terms[m].from != End {
          assert rs[1..][k] == rs[k + 1];
        }
      }
      ParseRecordsEncode(rs[1..]);
      assert [r] + rs[1..] == rs;
    }
  }

  /** Encoding then parsing gives the records back, as long as no term starts with the end marker. */
  lemma ParseEncode(ni: real, no: real, rs: seq<Record>)
    requires Unambiguous(rs)
    ensures Parse(Encode(ni, no, rs)) == Ok(rs)
  {
    assert Encode(ni, no, rs)[2..] == EncodeRecords(rs);
    ParseRecordsEncode(rs);
  }

  lemma {:induction false} ParsedTermsUnambiguous(d: seq<real>)
    requires ParseTerms(d).Ok?
    ensures forall m | 0 <= m < |ParseTerms(d).value.0| :: ParseTerms(d).value.0[m].from != End
    decreases |d|
  {
    if d != [] && d[0] != End {
      ParsedTermsUnambiguous(d[3..]);
      var ts := ParseTerms(d).value.0;
      assert forall m | 1 <= m < |ts| :: ts[m] == ParseTerms(d[3..]).value.0[m - 1];
    }
  }

  lemma {:induction false} ParsedRecordsUnambiguous(d: seq<real>)
    requires ParseRecords(d).Ok?
    ensures Unambiguous(ParseRecords(d).value)
    decreases |d|
  {
    if d != [] {
      var p := ParseTerms(d[5..]).value;
      ParsedTermsUnambiguous(d[5..]);
      ParsedRecordsUnambiguous(p.1);
      var rs := ParseRecords(d).value;
      assert forall k | 1 <= k < |rs| :: rs[k] == ParseRecords(p.1).value[k - 1];
    }
  }

  /** Whatever parses is the encoding of what it parses to, and that is unambiguous. */
  lemma EncodeParse(data: seq<real>)
    requires |data| >= 2 && Parse(data).Ok?
    ensures Unambiguous(Parse(data).value)
    ensures Encode(data[0], data[1], Parse(data).value) == data
  {
    ParsedRecordsUnambiguous(data[2..]);
  }

  // ---------------------------------------------------------------------
  // Evaluation of the records.

  /** Whether `x` names a position below `n`. */
  predicate IsIndex(x: real, n: nat) {
    IsNat(x) && 0 <= x.Floor < n
  }

  predicate GaterFits(g: real, n: nat) {
    g == NoGater || IsIndex(g, n)
  }

  /** Whether every number a record uses as a position names an existing activation, state and squash. */
  predicate Fits(r: Record, n: nat, nf: nat) {
    && IsIndex(r.index, n) && IsIndex(r.squash, nf) && GaterFits(r.selfGater, n)
    && forall m | 0 <= m < |r.terms| :: IsIndex(r.terms[m].from, n) && GaterFits(r.terms[m].gater, n)
  }

  /** A gater's gain: 1 for none, otherwise the gater's activation. */
  function Gain(a: seq<real>, g: real): (r: real)
    requires GaterFits(g, |a|)
    ensures g == NoGater ==> r == 1.0
    ensures g != NoGater ==> r == a[g.Floor]
  {
    if g == NoGater then 1.0 else a[g.Floor]
  }

  /** The incoming terms' contribution to the state. */
  function TermSum(ts: seq<Term>, a: seq<real>): real
    requires forall m | 0 <= m < |ts| :: IsIndex(ts[m].from, |a|) && GaterFits(ts[m].gater, |a|)
    decreases |ts|
  {
    if ts == [] then 0.0
    else
      assert IsIndex(ts[0].from, |a|);
      a[ts[0].from.Floor] * ts[0].weight * Gain(a, ts[0].gater) + TermSum(ts[1..], a)
  }

  /** Activation and state arrays of one length. */
  datatype Arrays = Arrays(a: seq<real>, s: seq<real>)

  /**
    One record's update: the new state is the gained self-connection
    times the old state plus the bias plus every incoming term, and the
    new activation is the record's squash of it. Nothing else changes.
   */
  function Fire(x: Arrays, r: Record, squashes: seq<real -> real>): (y: Arrays)
    requires |x.a| == |x.s| && Fits(r, |x.a|, |squashes|)
    ensures |y.a| == |x.a| && |y.s| == |x.s|
    ensures forall k | 0 <= k < |x.a| && k != r.index.Floor :: y.a[k] == x.a[k] && y.s[k] == x.s[k]
    ensures y.s[r.index.Floor] == Gain(x.a, r.selfGater) * r.selfWeight * x.s[r.index.Floor] + r.bias + TermSum(r.terms, x.a)
    ensures y.a[r.index.Floor] == squashes[r.squash.Floor](y.s[r.index.Floor])
  {
    var i := r.index.Floor;
    var st := Gain(x.a, r.selfGater) * r.selfWeight * x.s[i] + r.bias + TermSum(r.terms, x.a);
    Arrays(x.a[i := squashes[r.squash.Floor](st)], x.s[i := st])
  }

  predicate AllFit(rs: seq<Record>, n: nat, nf: nat) {
    forall k | 0 <= k < |rs| :: Fits(rs[k], n, nf)
  }

  /** Whether some record writes position `k`. */
  predicate Writes(rs: seq<Record>, k: nat) {
    exists m | 0 <= m < |rs| :: rs[m].index == k as real
  }

  /** The records fired in order. */
  function FireAll(x: Arrays, rs: seq<Record>, squashes: seq<real -> real>): (y: Arrays)
    requires |x.a| == |x.s| && AllFit(rs, |x.a|, |squashes|)
    ensures |y.a| == |x.a| && |y.s| == |x.s|
    decreases |rs|
  {
    if rs == [] then x else FireAll(Fire(x, rs[0], squashes), rs[1..], squashes)
  }

  /** Positions no record names keep their activation and state. */
  lemma {:induction false} FireAllUntouched(x: Arrays, rs: seq<Record>, squashes: seq<real -> real>, k: nat)
    requires |x.a| == |x.s| && AllFit(rs, |x.a|, |squashes|)
    requires k < |x.a| && !Writes(rs, k)
    ensures FireAll(x, rs, squashes).a[k] == x.a[k]
    ensures FireAll(x, rs, squashes).s[k] == x.s[k]
    decreases |rs|
  {
    if rs != [] {
      var y := Fire(x, rs[0], squashes);
      assert rs[0].index != k as real;
      assert rs[0].index.Floor as real == rs[0].index;
      forall m | 0 <= m < |rs[1..]| ensures rs[1..][m].index != k as real {
        assert rs[1..][m] == rs[m + 1];
      }
      assert AllFit(rs[1..], |y.a|, |squashes|) by {
        forall m | 0 <= m < |rs[1..]| ensures Fits(rs[1..][m], |y.a|, |squashes|) {
          assert rs[1..][m] == rs[m + 1];
        }
      }
      FireAllUntouched(y, rs[1..], squashes, k);
    }
  }

  /** The last record to fire leaves its node's activation equal to the squash of its state. */
  lemma {:induction false} FireAllLast(x: Arrays, rs: seq<Record>, squashes: seq<real -> real>)
    requires |x.a| == |x.s| && AllFit(rs, |x.a|, |squashes|) && rs != []
    ensures var y := FireAll(x, rs, squashes);
      var last := rs[|rs| - 1];
      y.a[last.index.Floor] == squashes[last.squash.Floor](y.s[last.index.Floor])
    decreases |rs|
  {
    var y := Fire(x, rs[0], squashes);
    assert AllFit(rs[1..], |y.a|, |squashes|) by {
      forall m | 0 <= m < |rs[1..]| ensures Fits(rs[1..][m], |y.a|, |squashes|) {
        assert rs[1..][m] == rs[m + 1];
      }
    }
    if |rs| > 1 {
      FireAllLast(y, rs[1..], squashes);
    }
  }

  /** What the caller hands over: a parsable header, room in the arrays, and records that fit. */
  predicate Sized(input: seq<real>, x: Arrays, data: seq<real>, nf: nat) {
    && |data| >= 2 && IsNat(data[0]) && IsNat(data[1])
    && data[0].Floor <= |input| && data[0].Floor <= |x.a| && data[1].Floor <= |x.a|
    && |x.a| == |x.s|
  }

  /**
    `activateSerializedNetwork(input, A, S, data, F)`: the first data[0]
    activations take the input values, every record fires in order, and
    the last data[1] activations are the output. The arrays are mutated
    in place in the source, so the final arrays are returned alongside.
   */
  function ActivateSerialized(input: seq<real>, x: Arrays, data: seq<real>, squashes: seq<real -> real>): (r: Result<(seq<real>, Arrays)>)
    requires Sized(input, x, data, |squashes|)
    requires Parse(data).Ok? ==> AllFit(Parse(data).value, |x.a|, |squashes|)
    ensures r.Err? <==> Parse(data).Err?
    ensures r.Err? ==> r.error == Hang
    ensures r.Ok? ==>
      var y := r.value.1;
      && |y.a| == |x.a| && |y.s| == |x.s|
      && |r.value.0| as real == data[1]
      && r.value.0 == y.a[|y.a| - data[1].Floor..]
  {
    var rs :- Parse(data);
    Ok(Run(input, x, rs, data[0].Floor, data[1].Floor, squashes))
  }

  /** The body of a run once the records are parsed: `ni` inputs copied in, `no` outputs read out. */
  function Run(input: seq<real>, x: Arrays, rs: seq<Record>, ni: nat, no: nat, squashes: seq<real -> real>)
    : (r: (seq<real>, Arrays))
    requires ni <= |input| && ni <= |x.a| && no <= |x.a| && |x.a| == |x.s| && AllFit(rs, |x.a|, |squashes|)
    ensures |r.1.a| == |x.a| && |r.1.s| == |x.s| && |r.0| == no
  {
    var copied := Arrays(input[..ni] + x.a[ni..], x.s);
    var y := FireAll(copied, rs, squashes);
    (y.a[|y.a| - no..], y)
  }

  /**
    An input position that no record writes ends with the input value,
    and any other position no record writes keeps its old activation.
   */
  lemma Untouched(input: seq<real>, x: Arrays, data: seq<real>, squashes: seq<real -> real>, k: nat)
    requires Sized(input, x, data, |squashes|)
    requires Parse(data).Ok? && AllFit(Parse(data).value, |x.a|, |squashes|)
    requires k < |x.a| && !Writes(Parse(data).value, k)
    ensures var y := ActivateSerialized(input, x, data, squashes).value.1;
      y.a[k] == (if k < data[0].Floor then input[k] else x.a[k]) && y.s[k] == x.s[k]
  {
    var ni := data[0].Floor;
    var copied := Arrays(input[..ni] + x.a[ni..], x.s);
    FireAllUntouched(copied, Parse(data).value, squashes, k);
  }
}
