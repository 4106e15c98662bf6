/**
 * The vocabulary shared by both YantraBhashi validators: the two variable
 * types, logical statements, diagnostics, the reserved words and the fixed
 * message templates.
 */
module Language {
  import opened JsText

  /** The two declared types: `ANKHE` (integer) and `VARTTAI` (string). */
  datatype Ty = ANKHE | VARTTAI

  /** The symbol table: variable name to declared type, only declared names as keys. */
  type Table = map<string, Ty>

  /** One `{ line, message }` entry of the error list. */
  datatype Diagnostic = Diagnostic(line: int, message: string)

  /** A logical statement produced by a segmenter: its text and the physical line it starts on. */
  datatype Stmt = Stmt(text: string, line: int)

  const ReservedWords: seq<string> :=
    ["PADAM", "ANKHE", "VARTTAI", "ELAITHE", "ALAITHE", "MALLI-MALLI", "CHATIMPU", "CHEPPU"]

  predicate IsReserved(name: string) { name in ReservedWords }

  /** `type === "ANKHE" ? "integer" : "string"` */
  function TypeWord(t: Ty): string {
    if t == ANKHE then "integer" else "string"
  }

  const UnmatchedCloser := "Unmatched closing bracket ']'"
  const MissingCloser := "Missing closing ']' for block opened here."
  const MissingSemicolon := "Missing semicolon."
  const UnknownStatement := "Unknown or invalid statement."
  const InvalidLoop := "Invalid MALLI-MALLI syntax."

  function ReservedName(name: string): string {
    "Variable name '" + name + "' is reserved."
  }

  function AlreadyDeclared(name: string): string {
    "Variable '" + name + "' already declared."
  }

  function UndeclaredTarget(name: string): string {
    "Undeclared variable '" + name + "'."
  }

  /** `print` or `scan` */
  function UndeclaredInIo(name: string, isPrint: bool): string {
    "Undeclared variable '" + name + "' in " + (if isPrint then "print" else "scan") + "."
  }


}
