/**
  The constant tables under `methods/`: the activation registry, the
  mutation operators with their parameters, and the group wiring and
  gating policies. The squash functions themselves are numeric and are
  represented only by their tags.
 */
module Methods {
  import opened Base

  /** The activation registry, in declaration order. */
  datatype Squash =
    | Logistic | Tanh | Identity | Step | Relu | Softsign | Sinusoid | Gaussian
    | BentIdentity | Bipolar | BipolarSigmoid | HardTanh | Absolute | Inverse | Selu

  /** `MOD_ACTIVATION.allowed`: every registered squash, in the table's order. */
  const Allowed: seq<Squash> :=
    [Logistic, Tanh, Relu, Identity, Step, Softsign, Sinusoid, Gaussian,
     BentIdentity, Bipolar, BipolarSigmoid, HardTanh, Absolute, Inverse, Selu]

  lemma AllowedIsRegistry()
    ensures |Allowed| == 15 && Distinct(Allowed)
    ensures forall s: Squash :: s in Allowed
  {
    forall s: Squash ensures s in Allowed {
      match s
      case Logistic => assert Allowed[0] == s;
      case Tanh => assert Allowed[1] == s;
      case Relu => assert Allowed[2] == s;
      case Identity => assert Allowed[3] == s;
      case Step => assert Allowed[4] == s;
      case Softsign => assert Allowed[5] == s;
      case Sinusoid => assert Allowed[6] == s;
      case Gaussian => assert Allowed[7] == s;
      case BentIdentity => assert Allowed[8] == s;
      case Bipolar => assert Allowed[9] == s;
      case BipolarSigmoid => assert Allowed[10] == s;
      case HardTanh => assert Allowed[11] == s;
      case Absolute => assert Allowed[12] == s;
      case Inverse => assert Allowed[13] == s;
      case Selu => assert Allowed[14] == s;
    }
  }

  /** The fourteen structural operators, each with the parameters its table entry carries. */
  datatype Mutation =
    | AddNode
    | SubNode(keepGates: bool)
    | AddConn
    | SubConn
    | ModWeight(min: real, max: real)
    | ModBias(min: real, max: real)
    | ModActivation(mutateOutput: bool, allowed: seq<Squash>)
    | AddSelfConn
    | SubSelfConn
    | AddGate
    | SubGate
    | AddBackConn
    | SubBackConn
    | SwapNodes(mutateOutput: bool)

  /** The `name` field of each table entry; SUB_CONN's entry is named 'REMOVE_CONN'. */
  function Name(m: Mutation): string {
    match m
    case AddNode => "ADD_NODE"
    case SubNode(_) => "SUB_NODE"
    case AddConn => "ADD_CONN"
    case SubConn => "REMOVE_CONN"
    case ModWeight(_, _) => "MOD_WEIGHT"
    case ModBias(_, _) => "MOD_BIAS"
    case ModActivation(_, _) => "MOD_ACTIVATION"
    case AddSelfConn => "ADD_SELF_CONN"
    case SubSelfConn => "SUB_SELF_CONN"
    case AddGate => "ADD_GATE"
    case SubGate => "SUB_GATE"
    case AddBackConn => "ADD_BACK_CONN"
    case SubBackConn => "SUB_BACK_CONN"
    case SwapNodes(_) => "SWAP_NODES"
  }

  /** The keys of the mutation table. */
  const TableKeys: seq<string> :=
    ["ADD_NODE", "SUB_NODE", "ADD_CONN", "SUB_CONN", "MOD_WEIGHT", "MOD_BIAS",
     "MOD_ACTIVATION", "ADD_SELF_CONN", "SUB_SELF_CONN", "ADD_GATE", "SUB_GATE",
     "ADD_BACK_CONN", "SUB_BACK_CONN", "SWAP_NODES"]

  /** `method.name in methods.mutation`: a name is looked up among the table's keys. */
  predicate Known(m: Mutation) {
    Name(m) in TableKeys
  }

  /** Every entry's name is a key of the table except SUB_CONN's. */
  lemma KnownExactlyWhenNotSubConn(m: Mutation)
    ensures Known(m) <==> !m.SubConn?
  {
    if m.SubConn? {
      assert Name(m) == "REMOVE_CONN";
      assert forall k | k in TableKeys :: k != "REMOVE_CONN";
    }
  }

  /** The table entries as the library ships them. */
  const SubNodeDefault := SubNode(true)
  const ModWeightDefault := ModWeight(-1.0, 1.0)
  const ModBiasDefault := ModBias(-1.0, 1.0)
  const ModActivationDefault := ModActivation(true, Allowed)
  const SwapNodesDefault := SwapNodes(true)

  /** Group wiring policies. */
  datatype Wiring = AllToAll | AllToElse | OneToOne

  /** Group gating policies. */
  datatype Gating = GateInput | GateOutput | GateSelf
}
