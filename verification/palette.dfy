/**
 * The badge palette shared by the views' colour rules; each tone stands for
 * one class string of the design system.
 */
module Palette {
  datatype Tone =
    | SuccessTone   // bg-success/20 text-success border-success/20
    | WarningTone   // bg-warning/20 text-warning border-warning/20
    | ErrorTone     // bg-error/20 text-error border-error/20
    | PrimaryTone   // bg-primary/20 text-primary border-primary/20
    | NeutralTone   // bg-surface/60 border-white/10
}
