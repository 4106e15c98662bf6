# YantraBhashi validators and rule-based fixers in Dafny

YantraBhashi is a small teaching language with Telugu keywords:
- `PADAM name : ANKHE|VARTTAI [= value];` declares an integer or string variable;
- `CHATIMPU(...)` prints and `CHEPPU(...)` reads;
- `ELAITHE (cond) [ ... ] ALAITHE [ ... ]` is an if/else;
- `MALLI-MALLI (PADAM i:ANKHE = 0; i < n; i = i + 1) [ ... ]` is a loop.

The repository checks submissions statically. It returns a list of `{line, message}` diagnostics without running the program. This project models that core and proves properties of it:

- **The relaxed validator.** `SubmissionService.validate_code` (backend/src/services/submissionService.js) is modelled in modules `RelaxedValidator`, `RelaxedChecks` and `RelaxedFacts`. It has four parts:
  - a segmenter that folds physical lines into statements, each with the line it starts at;
  - a stack of open blocks;
  - a symbol table mapping names to `ANKHE` or `VARTTAI`;
  - a cascade of checks applied to each statement.

  Class `SubmissionService` runs these steps the way the source does, updating its table and error list in place. Its methods are proved equal to specification functions (`Segment`, `Step`, `Run`, `Diagnostics`). The lemmas in `RelaxedFacts` state what each step does.
- **The strict validator.** `YantraBhashaValidator.validate_code` (validator.js) is modelled in `StrictValidator`, `StrictChecks` and `StrictFacts`, built the same way.
- **State shared by both validators.** `ValidatorState` holds the segmenter state, the checker state (table, errors, open blocks), the closing pass, and the `Extends` relation. `Extends` says how one statement may change the state: the error list only grows, and only at that statement's line.
- **The rule-based fixers** in backend/src/utils/aiCorrector.cjs are modelled in `AiCorrector`:
  - `validateAndFixCode` closes an odd quote and appends a missing `;` on each line;
  - `createFallbackResponse` replaces `'` with `"`, ends the lines that errors point at with `;`, then runs `validateAndFixCode`;
  - `createCorrectionPrompt` renders the prompt text.
- **The placeholder normaliser** of `generateCorrection` (backend/src/services/aiService.js) is modelled in `AiService`. It strips trailing white space, collapses runs of empty lines, and ends the text with one line feed.
- **Supporting modules.**
  - `JsText` holds the JavaScript string primitives: `trim`, `trimEnd`, `split(/\r?\n/)`, `join`, `split(';')` and the `\s` class.
  - `Patterns` holds hand-written matchers for the regular expressions. `\w` is `[A-Za-z0-9_]`, and `.` stops at line terminators unless the `s` flag is set.
  - `Language` holds the types and message templates.
  - `Arith` is a recursive-descent recogniser that stands in for `eval`.
- **The two validators compared.**
  - `StrictSegments` states where the strict segmenter's statements start and end.
  - `LoopHeaders` runs both loop-header checks on headers written the documented way, and on one with an extra `;`. It also compares the two condition checks.

Where the code behaves differently from what its messages and the documented syntax above suggest, the model follows the code:
- **`sum = a + b;` with `a` and `b` undeclared (relaxed).** The code reports a single "Type mismatch: Cannot assign arithmetic expression to integer variable 'sum'.", not one "Undeclared variable" message per identifier.
- **Declaration with no `;` (relaxed).** The code reports "Missing semicolon in variable declaration.", not "Missing semicolon.".
- **`sum = sum + i;` inside a rejected loop (relaxed).** The loop header is reported as invalid, so `sum` is never declared. The code then also reports "Undeclared variable 'sum'." on the body line.
- **Loop variable in the strict `validate_loop`.** The code does not check that the three header parts name the same variable.
- **Loop variable declaration.** Both validators declare the loop variable only when the first `;`-part of the header, untrimmed, is `PADAM v:ANKHE = <int>`.
- **`] ALAITHE [` in the strict validator.** The statement is not exactly `]`, so it closes nothing. Because it ends in `[`, it opens a block, and it is then reported as "Unknown or invalid statement." (`StrictFacts.StepCloseElse`).

Nothing here is executed; every statement below is a verified contract.

## Model

| member | source | states |
|---|---|---|
| RelaxedValidator.SubmissionService.ValidateCode | backend/src/services/submissionService.js:10-213 | Resets the table and the error list, then returns the diagnostics of the statement loop followed by one "Missing closing ']'" per block left open. The result and the final table are functions of the code alone, so two calls on the same code return equal lists. |
| RelaxedValidator.SubmissionService.SegmentLines | backend/src/services/submissionService.js:21-53 | The segmenting loop over the physical lines yields the statements of the segmenter fold, with a leftover buffer flushed as the last statement. |
| RelaxedValidator.SegmentLine | backend/src/services/submissionService.js:22-49 | One pass of the segmenting loop does the following: sets the start line when the buffer is empty; skips blank lines and `#` lines; cuts the inline comment; appends to the buffer; enters loop-header mode on `MALLI-MALLI (`; and closes the statement on `)[` in that mode, or else on `;`, a trailing `[`, or a lone `]`. |
| RelaxedValidator.CommentStart | backend/src/services/submissionService.js:27 | `/#.*$/` matches at the first `#` that has no line terminator after it, or nowhere. |
| RelaxedValidator.SubmissionService.CheckStatements | backend/src/services/submissionService.js:57-204 | The statement loop, starting from an empty table and list, leaves the table, the error list and the open blocks of the fold over all statements. |
| RelaxedValidator.SubmissionService.CheckStatement | backend/src/services/submissionService.js:58-203 | One statement is normalised (trimmed, white space collapsed, comment cut), then passes through the cascade: closer, opener, declaration, unterminated declaration, assignment, print/scan, branch headers, loop header, fallback. The first check that finishes the statement stops it. |
| RelaxedValidator.SubmissionService.CloseBlock | backend/src/services/submissionService.js:70-92 | A leading `]` pops a block, or reports "Unmatched closing bracket ']'" when none is open. Then `ALAITHE [` reopens a block, the two misplaced-semicolon forms are reported, and any other rest goes on down the cascade. |
| RelaxedValidator.SubmissionService.Declare | backend/src/services/submissionService.js:98-119 | A declaration reports a reserved or already declared name. Otherwise it declares the name and reports an initializer that is not a literal of the type. The text after the first `;` goes on. |
| RelaxedValidator.SubmissionService.Unterminated | backend/src/services/submissionService.js:121-125 | A declaration with no `;` is reported as "Missing semicolon in variable declaration." and finishes the statement. |
| RelaxedValidator.SubmissionService.Assign | backend/src/services/submissionService.js:127-143 | An assignment reports an undeclared target, or a type mismatch when `check_expr_type` fails. The text after the `;` goes on. |
| RelaxedValidator.SubmissionService.InputOutput | backend/src/services/submissionService.js:145-157 | A print or scan accepts a quoted argument and reports an undeclared name. The text after the `;`s goes on. |
| RelaxedValidator.SubmissionService.Branch | backend/src/services/submissionService.js:159-173 | `ELAITHE (…) [` and `ALAITHE [` finish the statement. `ALAITHE ; [` is reported. |
| RelaxedValidator.SubmissionService.Loop | backend/src/services/submissionService.js:175-194 | A `MALLI-MALLI (…) [` header finishes the statement with the verdict of `validate_loop` on its trimmed header. |
| RelaxedValidator.SubmissionService.LoopHeader | backend/src/services/submissionService.js:179-192 | An invalid header is reported as "Invalid MALLI-MALLI syntax.". A valid one sets the loop variable to `ANKHE`. |
| RelaxedValidator.SubmissionService.Fallback | backend/src/services/submissionService.js:196-203 | Reports "Missing semicolon." or "Unknown or invalid statement.", as the fallback checks decide. |
| RelaxedValidator.SubmissionService.ReportUnclosed | backend/src/services/submissionService.js:206-210 | Appends one "Missing closing ']' for block opened here." per open block, at its line and in stack order. The table is unchanged. |
| RelaxedValidator.SubmissionService.CheckExpression | backend/src/services/submissionService.js:225-234 | Agrees with `check_expr_type`: the integer check for `ANKHE`, the string check for `VARTTAI`. |
| RelaxedValidator.SubmissionService.IsValidIntegerExpression | backend/src/services/submissionService.js:236-269 | Accepts exactly the following: an integer literal; a word declared `ANKHE`; or a quote-free expression whose identifiers are all `ANKHE` variables and which, with each identifier replaced by `1`, is arithmetic that evaluates. |
| RelaxedValidator.SubmissionService.SubstituteIdentifiers | backend/src/services/submissionService.js:249-257 | The identifier loop succeeds exactly when every identifier is an `ANKHE` variable. On success the text has every identifier replaced, as a whole word, by `1`. |
| RelaxedValidator.SubstituteStep | backend/src/services/submissionService.js:256 | Replacing one more identifier in the partly replaced text gives the text with that many identifiers replaced. |
| RelaxedChecks.ReplaceTokensAt | backend/src/services/submissionService.js:256 | A token that is one of the replaced names becomes `1`; every other token is kept. |
| RelaxedChecks.IntLiteralNoIdentifiers | backend/src/services/submissionService.js:237-250 | An integer literal contains no identifier. |
| RelaxedChecks.IntExprOkSound | backend/src/services/submissionService.js:245-257 | An accepted integer expression contains no `"`, and every identifier in it is declared `ANKHE`. |
| RelaxedChecks.Describe | backend/src/services/submissionService.js:283-311 | The description is one of the eight fixed phrases. |
| RelaxedChecks.OwnTypeDescriptionPasses | backend/src/services/submissionService.js:283-300 | A value described as an integer literal or variable passes the integer check; one described as a string literal or variable passes the string check. So a mismatch message never describes the value as having the target's type. |
| RelaxedChecks.InitializerPassesAssignmentCheck | backend/src/services/submissionService.js:215-234 | An initializer that `check_type_value` accepts is also accepted by `check_expr_type` for the same type. |
| RelaxedChecks.ExprTypesOverlap | backend/src/services/submissionService.js:215-281 | No initializer is a literal of both types. A text passes both the integer and the string assignment check only when it is a run of digits that is also declared as a `VARTTAI` name, which `\w+` in the declaration pattern allows. |
| RelaxedChecks.CheckTypeValue | backend/src/services/submissionService.js:215-223 | Predicate; its properties are stated by `RelaxedChecks.ExprTypesOverlap` (no literal of both types), `RelaxedChecks.InitializerPassesAssignmentCheck` (an accepted initializer passes `check_expr_type`) and `RelaxedFacts.DeclareAccepts` ("Invalid … value" exactly when it fails). |
| RelaxedChecks.IntExprOk | backend/src/services/submissionService.js:236-269 | Predicate; `RelaxedChecks.IntExprOkSound` states that an accepted expression has no `"` and names only `ANKHE` variables, and `RelaxedValidator.SubmissionService.IsValidIntegerExpression` is proved equal to it. |
| RelaxedChecks.StringExprOk | backend/src/services/submissionService.js:271-281 | Predicate; `RelaxedChecks.ExprTypesOverlap` states when it overlaps the integer check, and `RelaxedChecks.OwnTypeDescriptionPasses` that a value described as a string literal or variable passes it. |
| RelaxedChecks.CheckExprType | backend/src/services/submissionService.js:225-234 | Predicate; its properties are stated by `RelaxedChecks.ExprTypesOverlap`, `RelaxedChecks.OwnTypeDescriptionPasses` and `RelaxedFacts.AssignReports` ("Type mismatch" exactly when it fails). |
| RelaxedChecks.ValidateLoop | backend/src/services/submissionService.js:313-351 | Predicate; `LoopHeaders.RelaxedDocumented`, `LoopHeaders.RelaxedNeedsTwoSemicolons` and `LoopHeaders.EmptyPartVerdicts` state its verdicts. |
| RelaxedChecks.ValidateCondition | backend/src/services/submissionService.js:353-374 | Predicate, never called by the validator; `LoopHeaders.ConditionVerdicts` compares it with the strict check. |
| RelaxedFacts.SegStepInvariant | backend/src/services/submissionService.js:22-49 | One physical line keeps the segmenter invariant: finished statements start at a content line and are closed, and loop mode is on exactly when the buffer holds a loop opener. |
| RelaxedFacts.SegRunInvariant | backend/src/services/submissionService.js:21-50 | The invariant holds after the last physical line. |
| RelaxedFacts.SegmentStatements | backend/src/services/submissionService.js:21-53 | Every statement starts at a content line, so blank and comment lines never start one, and its text begins with that line's content. Every statement but a flushed last one ends with `)` and `[` when it holds a loop opener, and otherwise ends in `;` or `[` or is `]`. No statement was already closed at one of its inner line breaks, so each ends at the first line that closes it. |
| RelaxedFacts.StepExtends | backend/src/services/submissionService.js:57-204 | Classifying one statement only appends errors, all at its line, and keeps every declared name. The stack sees at most one pop (a leading `]`) and at most one push, of the statement's own line. |
| RelaxedFacts.CloseOutcomes | backend/src/services/submissionService.js:77-91 | Every state the forms after a `]` can leave extends the state before the statement. |
| RelaxedFacts.CloseExtends | backend/src/services/submissionService.js:70-92 | The closer phase extends the state. |
| RelaxedFacts.CloseCases | backend/src/services/submissionService.js:70-91 | After the leading `]` pops the innermost block (or reports that none is open), the trimmed rest decides: `ALAITHE [` pushes a block at the statement's line and finishes; `ALAITHE ; [` and `; ALAITHE [` each report their message and finish; an empty rest finishes; any other rest goes on down the cascade unchanged. |
| RelaxedFacts.ClosePops | backend/src/services/submissionService.js:70-75 | A leading `]` not followed by `ALAITHE [` pops exactly one block, or none when none is open. |
| RelaxedFacts.CloseElseReopens | backend/src/services/submissionService.js:77-80 | `] ALAITHE [` pops one block and then pushes one at its own line, which finishes the statement. |
| RelaxedFacts.CloseUnmatched | backend/src/services/submissionService.js:71-72 | A leading `]` reports "Unmatched closing bracket ']'" right after the earlier errors exactly when no block is open. |
| RelaxedFacts.CloseElseSemicolons | backend/src/services/submissionService.js:81-86 | `] ALAITHE ; [` and `] ; ALAITHE [` each report their own "Remove semicolon" message. |
| RelaxedFacts.OpenExtends | backend/src/services/submissionService.js:94-96 | The opener phase extends the state. |
| RelaxedFacts.OpenBlocks | backend/src/services/submissionService.js:94-96 | A statement not starting with `]` pushes a block exactly when it ends in `[` and is not `] ALAITHE [`. |
| RelaxedFacts.DeclareExtends | backend/src/services/submissionService.js:98-119 | The declaration phase extends the state and leaves the blocks alone. |
| RelaxedFacts.DeclareCases | backend/src/services/submissionService.js:104-115 | The exact table and errors after each branch of a declaration. |
| RelaxedFacts.DeclareRejects | backend/src/services/submissionService.js:104-107 | A reserved or already declared name is reported once, and the table is unchanged. |
| RelaxedFacts.DeclareAccepts | backend/src/services/submissionService.js:108-114 | Any other name is declared with its type and stays declared. "Invalid … value" is reported exactly when the initializer is not a literal of that type. |
| RelaxedFacts.UnterminatedExtends | backend/src/services/submissionService.js:121-125 | The unterminated-declaration phase extends the state and leaves the blocks alone. |
| RelaxedFacts.AssignExtends | backend/src/services/submissionService.js:127-143 | The assignment phase extends the state and leaves the blocks alone. |
| RelaxedFacts.AssignMatched | backend/src/services/submissionService.js:127-143 | The same, for a statement the assignment pattern matches. |
| RelaxedFacts.AssignReports | backend/src/services/submissionService.js:127-139 | An undeclared target is reported as such. For a declared target, "Type mismatch" is reported exactly when `check_expr_type` fails. The table never changes. |
| RelaxedFacts.IoExtends | backend/src/services/submissionService.js:145-157 | The print/scan phase extends the state and leaves the blocks alone. |
| RelaxedFacts.IoReports | backend/src/services/submissionService.js:145-153 | The state is unchanged exactly when the argument is quoted or is a declared name. Otherwise exactly one "Undeclared variable … in print/scan" is appended, at the statement's line, and nothing else changes. |
| RelaxedFacts.BranchExtends | backend/src/services/submissionService.js:159-173 | The branch phase extends the state and leaves the blocks alone. |
| RelaxedFacts.LoopExtends | backend/src/services/submissionService.js:175-194 | The loop phase extends the state and leaves the blocks alone. |
| RelaxedFacts.FallbackExtends | backend/src/services/submissionService.js:196-203 | The fallback phase extends the state and leaves the blocks alone. |
| RelaxedFacts.FallbackReports | backend/src/services/submissionService.js:196-203 | A statement reaching the fallback gets at most one diagnostic. It gets "Missing semicolon." when it ends in neither `;` nor `[`; otherwise it gets "Unknown or invalid statement." exactly when it starts with no known form. |
| ValidatorState.MissingClosers | backend/src/services/submissionService.js:206-210 | One "Missing closing ']'" diagnostic per open block, at the line that opened it, oldest first. |
| ValidatorState.MissingClosersSnoc | validator.js:159-163 | Reporting one more block appends its diagnostic. |
| ValidatorState.CloseInnermostEffect | validator.js:58-63 | A closer pops exactly one block and leaves the table alone. It reports "Unmatched closing bracket ']'" exactly when no block is open. |
| ValidatorState.LoopVerdictExtends | validator.js:135-147 | A loop header never touches the blocks. |
| ValidatorState.LoopVerdictEffect | backend/src/services/submissionService.js:179-192 | An invalid header appends "Invalid MALLI-MALLI syntax." and leaves the table and blocks unchanged. A valid one reports nothing. When its first part declares `v`, the new table is the old one with `v` set to `ANKHE`, overwriting any earlier type, and every other name keeps its type. When no variable is matched, the state is unchanged. |
| StrictValidator.YantraBhashaValidator.ValidateCode | validator.js:9-166 | Resets the table and the list, then returns the statement loop's diagnostics followed by the unclosed-block reports. The result depends on the code alone. |
| StrictValidator.YantraBhashaValidator.SegmentLines | validator.js:21-46 | The segmenting loop yields the statements of the strict segmenter fold, with a leftover buffer flushed. |
| StrictValidator.SegmentLine | validator.js:22-42 | One pass of the strict segmenting loop: loop mode starts only at a line starting with `MALLI-MALLI(`, and inline comments are kept. |
| StrictValidator.MatchDeclaration | validator.js:73 | A matched declaration names a word and ends in `;`. |
| StrictValidator.MatchAssignment | validator.js:94 | A matched assignment starts with its target word followed by `=` and ends in `;`. |
| StrictValidator.MatchIo | validator.js:107-108 | A matched call starts with `CHATIMPU(` or `CHEPPU(` and ends in `;`. |
| StrictValidator.YantraBhashaValidator.CheckStatements | validator.js:51-156 | The statement loop, starting from an empty table and list, equals the fold over all statements. |
| StrictValidator.YantraBhashaValidator.CheckStatement | validator.js:52-156 | One statement: skipped when empty or a comment, closed when exactly `]`, otherwise opened when it ends in `[` and then classified. |
| StrictValidator.YantraBhashaValidator.ClassifyStatement | validator.js:72-155 | The forms are tried in order, and the first that matches decides. |
| StrictValidator.YantraBhashaValidator.Declare | validator.js:73-91 | Updates the table and list as a declaration does. |
| StrictValidator.YantraBhashaValidator.Assign | validator.js:94-104 | Updates the list as an assignment does. |
| StrictValidator.YantraBhashaValidator.InputOutput | validator.js:107-117 | Updates the list as a print or scan does. |
| StrictValidator.YantraBhashaValidator.Loop | validator.js:135-147 | Reports an invalid header, or sets the loop variable to `ANKHE`. |
| StrictValidator.YantraBhashaValidator.ReportUnclosed | validator.js:159-163 | Appends one "Missing closing ']'" per open block. The table is unchanged. |
| StrictChecks.ReplaceIntegerWordsAt | validator.js:182 | Each word naming an `ANKHE` variable becomes `1`; every other token is kept. |
| StrictChecks.IntegerCheckNoQuote | validator.js:180-183 | An expression the strict integer check accepts contains no `"`. |
| StrictChecks.IntegerCheckNamesDeclared | validator.js:180-183 | Every identifier in an accepted integer expression is an `ANKHE` variable. |
| StrictChecks.InitializerPassesAssignmentCheck | validator.js:169-189 | An initializer that `check_type_value` accepts is also accepted by `check_expr_type`. |
| StrictChecks.ExprTypesExclusive | validator.js:169-189 | No initializer is a literal of both types, and no text passes both the integer and the string assignment check: a `"` or the first letter of a string variable would survive the integer check's replacement. |
| StrictChecks.CheckTypeValue | validator.js:169-175 | Predicate; its properties are stated by `StrictChecks.ExprTypesExclusive`, `StrictChecks.InitializerPassesAssignmentCheck` and `StrictFacts.DeclaredEffect` ("Invalid … value" exactly when it fails). |
| StrictChecks.CheckExprType | validator.js:178-189 | Predicate; its properties are stated by `StrictChecks.IntegerCheckNoQuote`, `StrictChecks.IntegerCheckNamesDeclared`, `StrictChecks.ExprTypesExclusive` and `StrictFacts.AssignedEffect`. |
| StrictChecks.ValidateLoop | validator.js:192-202 | Predicate; `LoopHeaders.StrictAcceptsDocumented`, `LoopHeaders.EmptyPartVerdicts` and `StrictFacts.LoopFromParts` state its verdicts. |
| StrictChecks.ValidateCondition | validator.js:205-215 | Predicate; `LoopHeaders.ConditionVerdicts` compares it with the relaxed check. |
| StrictFacts.ClassifyReports | validator.js:72-155 | Classifying a statement appends at most one diagnostic, at its line. |
| StrictFacts.StepReports | validator.js:51-156 | One statement extends the state and adds at most one error. |
| StrictFacts.StepBlocks | validator.js:54-70 | Empty and comment statements change nothing. Exactly `]` pops one block and leaves the table alone, reporting "Unmatched closing bracket ']'" exactly when none is open. Every other statement pushes a block exactly when it ends in `[`. |
| StrictFacts.StepClassifies | validator.js:67-155 | Any other statement is opened, then classified. |
| StrictFacts.DeclaredEffect | validator.js:73-91 | A reserved or redeclared name is reported and leaves the table unchanged. Otherwise the name is declared, and "Invalid … value" is reported exactly when the initializer fails `check_type_value`. |
| StrictFacts.StepDeclaration | validator.js:73-91 | A statement matching the declaration pattern is handled as a declaration. |
| StrictFacts.AssignedEffect | validator.js:94-104 | An undeclared target is reported. For a declared target, "Invalid … assignment" is reported exactly when `check_expr_type` fails. The table is unchanged. |
| StrictFacts.StepAssignment | validator.js:94-104 | A statement matching the assignment pattern is handled as an assignment. |
| StrictFacts.IntegerAssignmentAccepted | validator.js:98-104 | An accepted assignment to an `ANKHE` variable has no `"`, and all its identifiers are `ANKHE` variables. |
| StrictFacts.StepIo | validator.js:107-117 | A print or scan statement is handled as one. |
| StrictFacts.InOutEffect | validator.js:109-116 | Nothing is reported exactly when the argument is quoted or declared. Otherwise "Undeclared variable … in print/scan" is reported. |
| StrictFacts.StepCondition | validator.js:120-126 | An `ELAITHE` header opens a block and is judged by `validate_condition`. |
| StrictFacts.ConditionalEffect | validator.js:121-125 | "Invalid condition in ELAITHE." is reported exactly when the condition fails. |
| StrictFacts.StepElse | validator.js:129-132 | `ALAITHE [` only opens a block. |
| StrictFacts.StepLoop | validator.js:135-147 | A loop header opens a block and then takes the verdict of `validate_loop`. |
| StrictFacts.StepClosingPrefix | validator.js:58-70 | A statement starting with `]` that is longer than `]` closes nothing. |
| StrictFacts.StepCloseElse | validator.js:58-155 | `] ALAITHE [` opens a block and is reported as "Unknown or invalid statement.". |
| StrictFacts.UnrecognisedEffect | validator.js:150-155 | A statement of no known form gets exactly one diagnostic: "Missing semicolon." when it ends in neither `;` nor `[`, and "Unknown or invalid statement." otherwise. |
| StrictFacts.RunReports | validator.js:51-156 | After k statements there are at most k errors, each at the start line of one of them. |
| StrictFacts.DiagnosticLines | validator.js:9-166 | Every diagnostic is at the start line of a statement. |
| ValidatorState.ReportsAtLines | backend/src/services/submissionService.js:206-210 | When every diagnostic and every open block of a state is at one of a set of lines, so is every diagnostic in the list that also reports the blocks left open. |
| RelaxedFacts.RunAtLines | backend/src/services/submissionService.js:57-204 | After k statements every diagnostic and every open block is at the start line of one of them. |
| RelaxedFacts.DiagnosticLines | backend/src/services/submissionService.js:10-213 | Every diagnostic `validate_code` returns is at the start line of a statement. |
| StrictFacts.LoopFromParts | validator.js:192-202 | A header of three trimmed, non-empty parts (`PADAM v:ANKHE = <int>`, `w OP <int>`, `u = u + 1`) is valid, even when `v`, `w` and `u` differ. |
| StrictSegments.LoopLineAppend | validator.js:26-29 | Appending a line to the buffer puts it in loop mode exactly when it already was, or the new line starts with `MALLI-MALLI(`. |
| StrictSegments.SegStepInvariant | validator.js:22-42 | One physical line keeps the segmenter invariant: finished statements start at a code line, are closed and were not closed earlier; an open buffer starts at a code line and is not closed; loop mode is on exactly when one of its lines starts with `MALLI-MALLI(`. |
| StrictSegments.SegRunInvariant | validator.js:21-43 | The invariant holds after every prefix of the physical lines. |
| StrictSegments.SegmentStatements | validator.js:14-44 | Every statement starts at a line that is neither blank nor a comment, and begins with that line trimmed. Every statement but a flushed last one ends with `)` and `[` when one of its lines starts with `MALLI-MALLI(`, and otherwise ends in `;` or `[` or is `]`. No statement was already closed at an inner line break, so each ends at the first line that closes it. |
| LoopHeaders.DocumentedParts | validator.js:192-202 | The parts of a documented header `PADAM v:ANKHE = <int>; w OP <int>; u = u + 1` are recognised as a declaration of `v`, a comparison of `w` with an integer bound, and an update of `u`. |
| LoopHeaders.StrictAcceptsDocumented | validator.js:192-202 | The strict check accepts every documented header, whatever the three names are. |
| LoopHeaders.DocumentedNormalized | backend/src/services/submissionService.js:315-319 | A documented header is unchanged by the relaxed check's trimming and white-space collapsing, and holds no `;;`. |
| LoopHeaders.RelaxedDocumented | backend/src/services/submissionService.js:313-351 | The relaxed check accepts a documented header exactly when the comparison and the update both name the declared variable. |
| LoopHeaders.DocumentedHeaderVerdicts | backend/src/services/submissionService.js:313-351 | On the same documented header, the strict check always accepts and the relaxed check accepts exactly when the three names agree. |
| LoopHeaders.RelaxedNeedsTwoSemicolons | backend/src/services/submissionService.js:321-325 | The relaxed check rejects every header that does not have exactly two `;`. |
| LoopHeaders.EmptyPartVerdicts | validator.js:192-202 | A documented header with one more `;` after the declaration is accepted by the strict check, which drops the empty part, and rejected by the relaxed check. |
| LoopHeaders.ConditionVerdicts | backend/src/services/submissionService.js:353-374 | Neither condition check accepts a text that is not a comparison. The relaxed check accepts a comparison with an undeclared left side, which the strict check rejects. On a declared left side, every condition the relaxed check accepts the strict check accepts too; for a string variable, the relaxed check accepts exactly when the strict one does and the right side is a quoted literal or a string variable. |
| Arith.NumberEvaluates | backend/src/services/submissionService.js:263-265 | An unsigned integer literal with no leading zero is accepted by the stand-in for `eval`. |
| Arith.RegexLiteralRejected | backend/src/services/submissionService.js:263-265 | `/1/`, which `eval` reads as a regular-expression literal, is rejected by the stand-in. |
| Arith.Evaluates | backend/src/services/submissionService.js:263-265 | Predicate; `Arith.NumberEvaluates` and `Arith.RegexLiteralRejected` state what it accepts and where it departs from `eval`. |
| Patterns.Tokens | backend/src/services/submissionService.js:250 | Concatenating the word and non-word runs gives back the text. |
| Patterns.FilterIdentifiersIn | backend/src/services/submissionService.js:250 | The identifiers are exactly the tokens that start with a letter or `_`. |
| JsText.Trim | backend/src/services/submissionService.js:24 | `trim()` leaves no white space at either end and is a slice of the input. |
| JsText.TrimRemovesSpaces | backend/src/services/submissionService.js:60 | `trim()` removes only white space, from the two ends. |
| JsText.TrimIdempotent | backend/src/services/submissionService.js:60 | Trimming twice is trimming once. |
| JsText.TrimEnd | backend/src/services/aiService.js:67 | `\s+$` removal keeps a prefix, drops only white space, and leaves no trailing white space. |
| JsText.CollapseSpaces | backend/src/services/submissionService.js:61 | `replace(/\s+/g, ' ')` leaves only single spaces as white space, never two in a row. The result is empty exactly when the input is, and it starts and ends with white space exactly when the input does. |
| JsText.CollapseKeepsNonSpace | backend/src/services/submissionService.js:61 | Collapsing keeps every character that is not white space, in order: with white space removed, the result and the input are equal. |
| JsText.TrimNoLineFeed | validator.js:29 | Trimming a line with no line feed gives a text with no line feed. |
| JsText.SplitLines | backend/src/services/submissionService.js:15 | `split(/\r?\n/)` gives at least one line, none holding a line feed. |
| JsText.SplitLinesJoin | backend/src/utils/aiCorrector.cjs:57-73 | Joining lines with `\n` and splitting again gives the lines back, provided no line but the last ends in `\r`. |
| JsText.SplitLinesJoinCount | backend/src/utils/aiCorrector.cjs:57-73 | Joining with `\n` and splitting again keeps the number of lines. |
| JsText.SplitJoin | backend/src/services/submissionService.js:321 | `split(';')` gives parts without `;` that join back to the text. |
| JsText.FindChar | backend/src/services/submissionService.js:63 | `indexOf` finds the first occurrence, or none. |
| JsText.ReplaceChar | backend/src/utils/aiCorrector.cjs:77 | `replace(/'/g, '"')` changes each `'`, and only those. |
| JsText.Count | backend/src/utils/aiCorrector.cjs:63 | The number of matches is zero exactly when the character is absent. |
| AiCorrector.ValidateAndFixCode | backend/src/utils/aiCorrector.cjs:56-74 | The loop overwriting `lines[i]` and pushing to `corrections` returns the fixed text and notes of the candidate, or of the original when the candidate is missing or empty. |
| AiCorrector.FixLine | backend/src/utils/aiCorrector.cjs:60-71 | The loop body: a blank line is left alone. Otherwise an odd quote count gets a closing `"`, and a line that is neither terminated nor an `ELAITHE`/`ALAITHE`/`MALLI-MALLI` header gets `;`. Each change adds its note. |
| AiCorrector.CloseQuote | backend/src/utils/aiCorrector.cjs:63-64 | An odd number of `"` gets one closing `"` and the quote note for the line. An even number leaves the line as it is, with no note. |
| AiCorrector.AddSemicolon | backend/src/utils/aiCorrector.cjs:66-69 | Applied to the line after the quote step, a line that is neither terminated nor a header gets `;` and the semicolon note. The result is the fully fixed line and all its notes. |
| AiCorrector.BlankLineKept | backend/src/utils/aiCorrector.cjs:61 | An empty or all-white-space line is written back unchanged with no note. |
| AiCorrector.BlankIsAllSpaces | backend/src/utils/aiCorrector.cjs:61 | `!line.trim()` holds exactly when the line is all white space. |
| AiCorrector.FixedLineAppends | backend/src/utils/aiCorrector.cjs:64-68 | A fixed line has its input line as a prefix. The suffix is one of nothing, `"`, `;` or `";`, and blank lines are unchanged. |
| AiCorrector.FixedLineBalancesQuotes | backend/src/utils/aiCorrector.cjs:63-64 | Every non-blank fixed line has an even number of `"`. |
| AiCorrector.SemicolonEnds | backend/src/utils/aiCorrector.cjs:66-68 | A line with `;` appended matches `/;\s*$/`. |
| AiCorrector.FixedLineTerminates | backend/src/utils/aiCorrector.cjs:66-68 | A non-blank fixed line does one of two things. It ends in `;` or `[` (white space allowed after), or in `]` or `)`. Or its trimmed text starts with a branch or loop keyword. |
| AiCorrector.FixedLineKeepsBlankness | backend/src/utils/aiCorrector.cjs:61 | A fixed line is blank exactly when its input line is. |
| AiCorrector.FixedLineIdempotent | backend/src/utils/aiCorrector.cjs:63-69 | Fixing a fixed line changes nothing and adds no note. |
| AiCorrector.LineNotesMatchAppends | backend/src/utils/aiCorrector.cjs:64-68 | There is one note per appended character, in order: a quote note for `"`, a semicolon note for `;`, each citing line `i+1`. |
| AiCorrector.LineNotesEmptyIff | backend/src/utils/aiCorrector.cjs:63-69 | A line gets no note exactly when it is unchanged. |
| AiCorrector.FixAllAt | backend/src/utils/aiCorrector.cjs:59-72 | Line i of the result is line i fixed, and the number of lines is kept. |
| AiCorrector.FixKeepsLineCount | backend/src/utils/aiCorrector.cjs:57-73 | The corrected code has as many lines as the input. |
| AiCorrector.FixedTextLines | backend/src/utils/aiCorrector.cjs:57-73 | The lines of the corrected code are the input lines, each fixed. |
| AiCorrector.NotesOfFixedLines | backend/src/utils/aiCorrector.cjs:58-72 | Fixed lines give no notes. |
| AiCorrector.NoCorrectionsIffUnchanged | backend/src/utils/aiCorrector.cjs:58-72 | `corrections` is empty exactly when no line changes. |
| AiCorrector.FixAllIdempotent | backend/src/utils/aiCorrector.cjs:59-72 | Fixing the fixed lines again changes nothing. |
| AiCorrector.FixTextIdempotent | backend/src/utils/aiCorrector.cjs:56-74 | Fixing the corrected code again returns it unchanged, with no corrections. |
| AiCorrector.FixTextEmpty | backend/src/utils/aiCorrector.cjs:57-73 | Only empty code gives empty corrected code. |
| AiCorrector.ValidateAndFixIdempotent | backend/src/utils/aiCorrector.cjs:56-74 | Feeding `validateAndFixCode` its own output as the candidate returns the same code with no corrections. |
| AiCorrector.CandidateOrOriginal | backend/src/utils/aiCorrector.cjs:57 | A missing or empty candidate falls back to the original. A non-empty candidate makes the original irrelevant. |
| AiCorrector.FixTextKeepsOut | backend/src/utils/aiCorrector.cjs:56-74 | Fixing adds no character other than `"`, `;` and line feeds. |
| AiCorrector.CreateFallbackResponse | backend/src/utils/aiCorrector.cjs:76-89 | The `forEach` that reassigns `corrected` and pushes to `applied` returns the fallback response: quotes replaced, error lines terminated, then `validateAndFixCode`. |
| AiCorrector.SemicolonPassLines | backend/src/utils/aiCorrector.cjs:80-85 | An error whose line exists, is non-empty and does not match `/;\s*$/` has that line right-trimmed and ended with `;`. Every other line is unchanged. |
| AiCorrector.SemicolonPassRecords | backend/src/utils/aiCorrector.cjs:80-83 | "Added semicolon at line n" is recorded exactly when the line is changed. |
| AiCorrector.SemicolonPassKeepsOut | backend/src/utils/aiCorrector.cjs:79-85 | One error pass adds no character but `;` and line feeds. It turns non-empty code into non-empty code. |
| AiCorrector.SemicolonPassesKeepOut | backend/src/utils/aiCorrector.cjs:79-86 | Across all errors the same holds, and there is at most one applied note per error. |
| AiCorrector.FallbackResponseShape | backend/src/utils/aiCorrector.cjs:76-89 | The response always has `success` true and provider `fallback`. Its code contains no `'`. Its corrections start with the applied notes, at most one per error. |
| AiCorrector.ErrorLines | backend/src/utils/aiCorrector.cjs:44 | One rendered line per error. |
| AiCorrector.ErrorLinesAt | backend/src/utils/aiCorrector.cjs:44 | Error i is rendered as `Line <line>: <message>`. |
| AiCorrector.ErrorSectionEmpty | backend/src/utils/aiCorrector.cjs:44-52 | The joined error list is empty exactly when there are no errors, which is when `none` is printed. |
| AiCorrector.ErrorLineShape | backend/src/utils/aiCorrector.cjs:44 | A rendered error line has no line feed when its message has none. |
| AiCorrector.ErrorSectionLines | backend/src/utils/aiCorrector.cjs:44 | Splitting the error section gives back one `Line n: message` line per error. |
| AiCorrector.CorrectionPromptLayout | backend/src/utils/aiCorrector.cjs:43-54 | The prompt is the seven fixed parts joined by `\n`: instructions, rules, start marker, code, end marker, error header, and then the error lines or `none`. |
| AiService.PlaceholderCorrection | backend/src/services/aiService.js:53-74 | Non-string code gives `null`. Otherwise the loop pushing onto `compressed` gives the placeholder text and the note "Placeholder correction applied". |
| AiService.StripTrailingLines | backend/src/services/aiService.js:67 | No line has trailing white space after `replace(/\s+$/, '')`. |
| AiService.KeptFromLines | backend/src/services/aiService.js:68-72 | Every kept line is one of the input lines. |
| AiService.KeptNoDoubleBlank | backend/src/services/aiService.js:69-71 | No two kept lines in a row are empty. The last kept line is empty exactly when the last line looked at is. |
| AiService.KeptNonEmpty | backend/src/services/aiService.js:68-72 | Only empty lines are dropped: the non-empty lines are all kept, in order. |
| AiService.PlaceholderEnds | backend/src/services/aiService.js:73 | The output ends in exactly one line feed, with no white space before it. |
| AiService.KeptDropsRepeated | backend/src/services/aiService.js:68-72 | The kept lines are the input lines at increasing positions, and a position is kept exactly when its line is not an empty line right after an empty line. So the first empty line of each run stays and the others go. |
| AiService.KeptAll | backend/src/services/aiService.js:68-72 | After the whole loop: every kept line is an input line, no two kept lines in a row are empty, the non-empty lines are all kept in order, and the kept positions are exactly those whose line is not a repeated empty line. |
| AiService.PlaceholderLines | backend/src/services/aiService.js:67-73 | On the right-trimmed lines of the code: the kept lines have no trailing white space and no two empty lines in a row; their non-empty lines are those of the input, in order; and they are the input lines at increasing positions, with exactly the repeated empty lines dropped. |

## Left out

- `eval(test_expr)` in the relaxed integer check is replaced by `Arith.Evaluates`, a recogniser for arithmetic over numbers, `+ - * / **` and parentheses. Nothing is evaluated.
- Arith.Evaluates: reads every `/` as division, so a text made of the same characters that JavaScript reads as a regular-expression literal, such as `/1/`, is rejected here although `eval` accepts it (`Arith.RegexLiteralRejected`). Regular-expression literals need the parser's context to lex, and they are not modelled.
- JavaScript object-prototype lookups are not modelled. For example, `variable_table['constructor']` is truthy in the source. The table is a map holding only declared names.
- The `block_stack` field is never used by either validator, so it is not modelled. Open blocks are the local `open_blocks` list, held as a sequence of line numbers.
- The AI provider calls are not modelled, because they are network and foreign calls: `callOpenAI`, `callGemini`, the provider loop of `correctCodeWithAI`, `safeJsonExtract` and `loadAiCorrector`.
- The AI branch and the `try`/`catch` of `generateCorrection` are not modelled; only its argument check and its placeholder branch are.
- The Express controllers, routes, middleware, database models and React components are not modelled, because they are I/O, persistence and UI.
- Error entries of `createFallbackResponse` are `Diagnostic` values with integer lines. `null` entries and non-integer `line` values are not modelled. A missing error list (`errors || []`) is `None`.
- `createFallbackResponse`'s `opts` parameter is unused by the source and is left out.
- AiCorrector.FixedTextLines: requires that no line but the last ends in a carriage return. Splitting the joined text would otherwise merge that `\r` into the line ending, so the line-by-line equality is not claimed for such input. The line count is still kept (`AiCorrector.FixKeepsLineCount`).
- AiCorrector.FixTextIdempotent: same carriage-return condition as `AiCorrector.FixedTextLines`.
- AiCorrector.ValidateAndFixIdempotent: same carriage-return condition as `AiCorrector.FixedTextLines`.
- AiCorrector.SemicolonPassLines: same carriage-return condition, on the text the pass works on.
- StrictFacts.LoopFromParts: states only that three well-formed parts make a valid header. It does not state the converse.
- RelaxedFacts.SegmentStatements: states where each statement starts, how it ends, and that it ends at the first line closing it. It does not state that the statements' texts, joined, are exactly the content lines.
- StrictSegments.SegmentStatements: the same, for the strict segmenter.
- RelaxedChecks.Describe: states only that the description is one of the eight phrases of `get_expression_type_description`, and (in `RelaxedChecks.OwnTypeDescriptionPasses`) that it agrees with the checks. Which phrase is chosen is decided by the first test that matches, in the member's own if-chain, so a contract on that order could only repeat the chain.
