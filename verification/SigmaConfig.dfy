/** Types of sigma proofs and the sizes that go with them. */
module SigmaConfig {
  import opened Wrappers

  datatype SigmaType =
    | Dlog | Pedersen | DlogEq | DHTripple | Representation | SeveralDlog | SeveralDlogEq
    | PedersenMult | PedersenMultOpenOne

  /** `roType` and `pointFormat` select the hash and the point encoding; 0 is the default. */
  datatype SigmaConfig = SigmaConfig(
    kind: SigmaType, numWitness: nat, numRndWitness: nat, numGenerator: nat, numStatement: nat,
    dynSizeFlag: bool, roType: nat, pointFormat: nat)
  {
    predicate IsQualified() {
      if !dynSizeFlag then this == GetSigmaConfig(kind)
      else
        match kind
        case Representation =>
          numStatement == 1 && numWitness > 0 && numWitness == numRndWitness && numWitness == numGenerator
        case SeveralDlog =>
          numWitness > 0 && numWitness == numRndWitness && numWitness == numGenerator && numWitness == numStatement
        case SeveralDlogEq =>
          numWitness == 1 && numRndWitness == 1 && numGenerator >= 2 && numGenerator == numStatement
        case _ => false
    }

    /** Sets the sizes that vary; fails for types without any and for sizes that do not qualify. */
    function SetDynNum(n: nat): (r: Option<SigmaConfig>)
      ensures r.Some? ==> r.value.IsQualified() && r.value.kind == kind
    {
      if !dynSizeFlag then None
      else
        match kind
        case Representation =>
          Qualified(this.(numWitness := n, numRndWitness := n, numGenerator := n))
        case SeveralDlog =>
          Qualified(this.(numWitness := n, numRndWitness := n, numGenerator := n, numStatement := n))
        case SeveralDlogEq =>
          Qualified(this.(numGenerator := n, numStatement := n))
        case _ => None
    }

    /** The types the protocol implements. */
    predicate Supported() {
      IsQualified() && !kind.PedersenMult? && !kind.PedersenMultOpenOne?
    }
  }

  function Qualified(c: SigmaConfig): Option<SigmaConfig> {
    if c.IsQualified() then Some(c) else None
  }

  /** The table of configurations; 0 stands for a size that is set later. */
  function GetSigmaConfig(t: SigmaType): SigmaConfig {
    match t
    case Dlog => SigmaConfig(Dlog, 1, 1, 1, 1, false, 0, 0)
    case Pedersen => SigmaConfig(Pedersen, 2, 2, 2, 1, false, 0, 0)
    case DlogEq => SigmaConfig(DlogEq, 1, 1, 2, 2, false, 0, 0)
    case DHTripple => SigmaConfig(DHTripple, 1, 1, 2, 2, false, 0, 0)
    case Representation => SigmaConfig(Representation, 0, 0, 0, 1, true, 0, 0)
    case SeveralDlog => SigmaConfig(SeveralDlog, 0, 0, 0, 0, true, 0, 0)
    case SeveralDlogEq => SigmaConfig(SeveralDlogEq, 1, 1, 0, 0, true, 0, 0)
    case PedersenMult => SigmaConfig(PedersenMult, 5, 5, 2, 3, false, 0, 0)
    case PedersenMultOpenOne => SigmaConfig(PedersenMultOpenOne, 5, 5, 2, 3, false, 0, 0)
  }

  /** The three shapes: one sum over all generators, one product per generator, one witness for all of them. */
  datatype Shape = NN1 | NNN | OneNN

  function ShapeOf(t: SigmaType): Shape {
    match t
    case Dlog | Pedersen | Representation => NN1
    case SeveralDlog => NNN
    case _ => OneNN
  }

  /** A supported configuration fits its shape. */
  lemma SupportedSizes(c: SigmaConfig)
    requires c.Supported()
    ensures c.numWitness == c.numRndWitness > 0
    ensures match ShapeOf(c.kind)
            case NN1 => c.numStatement == 1 && c.numGenerator == c.numWitness
            case NNN => c.numStatement == c.numGenerator == c.numWitness
            case OneNN => c.numWitness == 1 && c.numStatement == c.numGenerator
  {
  }

  /** Which sizes a type with varying sizes accepts. */
  lemma SetDynNumAccepts(t: SigmaType, n: nat)
    ensures GetSigmaConfig(t).SetDynNum(n).Some? <==>
            (t.Representation? && n >= 1) || (t.SeveralDlog? && n >= 1) || (t.SeveralDlogEq? && n >= 2)
  {
  }
}
