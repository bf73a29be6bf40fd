/** Vocabulary shared by the ledger's pages. */
module Ledger {

  /** A transaction's `user_tag`: which household member it belongs to
      (`"papa"`, `"mama"` or `"shared"`). */
  datatype Tag = Papa | Mama | Shared
}
