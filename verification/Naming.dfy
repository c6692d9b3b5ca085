/** The names the binder and the planner make up for things without one. */
module Naming {
  const PSEUDO_AGG := "__pseudo_agg#"

  const AGG_COLUMN := "agg#"

  const UNNAMED_ITEM := "__item#"

  const UNNAMED_OUTPUT := "__unnamed#"

  function Digits(n: nat): string {
    if n < 10 then ["0123456789"[n]] else Digits(n / 10) + ["0123456789"[n % 10]]
  }
}
