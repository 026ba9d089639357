/** The names the backend accepts for schemas, tables, columns and databases. */
module Identifiers {
  /** `^[a-zA-Z_][a-zA-Z0-9_]*$` */
  predicate IsIdent(s: string) {
    && s != ""
    && !('0' <= s[0] <= '9')
    && forall i | 0 <= i < |s| :: 'a' <= s[i] <= 'z' || 'A' <= s[i] <= 'Z' || '0' <= s[i] <= '9' || s[i] == '_'
  }
}
