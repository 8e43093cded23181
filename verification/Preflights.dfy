/** The grade a preflight gives a proposal, across all kinds (nns/plan.go:89-104). */
module Preflights {

  /** NoOp changes nothing on-chain and is refused without --force; Warn is worth a look but does not block. */
  datatype Level = Clean | Warn | NoOp
}
