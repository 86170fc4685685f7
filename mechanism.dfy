/** The reaction records of a mechanism, reduced to what the classifier, the
    rate-type rules and the test fixture look at. Reactions are identified by
    their position in the mechanism's reaction list. */
module Mechanism {

  /** The blending function of a falloff reaction; `NoBlend` is a falloff
      reaction with neither a Troe nor an SRI form. */
  datatype Blend = NoBlend | Troe | Sri

  /** The reaction subtype, decided once when the mechanism is loaded.
      A chemically activated reaction is a falloff reaction in the reaction
      library's class hierarchy and carries the same blending function. */
  datatype Kind =
    | Elementary
    | ThreeBody
    | ChemicallyActivated(blend: Blend)
    | Falloff(blend: Blend)
    | Plog
    | Chebyshev

  /** One reaction. The activation energy and the temperature exponent are
      only ever compared against zero and tested for integrality. */
  datatype Reaction = Reaction(
    kind: Kind,
    activationEnergy: real,
    tempExponent: real,
    reversible: bool,
    efficiencies: map<string, real>,
    defaultEfficiency: real)

  predicate IsPlog(r: Reaction) { r.kind.Plog? }

  predicate IsChebyshev(r: Reaction) { r.kind.Chebyshev? }

  /** Everything that is evaluated by a closed-form Arrhenius expression:
      neither PLOG nor Chebyshev. */
  predicate IsSimple(r: Reaction) { !IsPlog(r) && !IsChebyshev(r) }

  predicate IsElementary(r: Reaction) { r.kind.Elementary? }

  /** Falloff, chemically activated and three-body reactions all carry a
      third-body concentration. */
  predicate IsThirdBody(r: Reaction) {
    r.kind.Falloff? || r.kind.ChemicallyActivated? || r.kind.ThreeBody?
  }

  /** `isinstance(x, FalloffReaction)`, which also holds of chemically
      activated reactions. */
  predicate IsFalloff(r: Reaction) { r.kind.Falloff? || r.kind.ChemicallyActivated? }

  predicate IsSriFalloff(r: Reaction) { IsFalloff(r) && r.kind.blend == Sri }

  predicate IsTroeFalloff(r: Reaction) { IsFalloff(r) && r.kind.blend == Troe }

  predicate IsReversible(r: Reaction) { r.reversible }
}
