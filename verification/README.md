# ForgeERP: a verified model of its core

This project models six parts of ForgeERP and proves what they promise. State that the Go
code updates in place is modelled by classes whose methods are proved equal to step
functions on plain values; the theorems are about those functions, over every input and
every run.

- **Price expressions** (`PriceSyntax`, `PricePrinting`, `PriceParser`, `Rational`,
  `Rounding`, `PriceEval`, `Literals`): the recursive-descent parser over a moving position accepts
  exactly a written-down grammar, parsing undoes printing, evaluation over rationals that
  overwrite their operands returns the real-number meaning and spoils no constant, and
  rounding is half away from zero.
- **Documents** (`Paths`, `FolderTree`, `FolderStore`, `StorageKeys`, `FileHistory`,
  `KeyCollisions`, `FileService`): the folder table is a forest along every run, the move guard
  is exact, paths and folders are inverse to each other, and file history is append-only, the
  stored bytes exactly for names that do not look like storage keys.
- **Ledger** (`Entries`, `Calendar`, `Canonical`, `Ambiguity`, `Chain`, `Ledger`, `Closing`,
  `FiscalYears`, `YearEnd`, `LedgerStore`): balanced entries, the per-entity hash chain, the trial balance, year-end
  closing, and the lock with its audit trail. Beside it auto-posting (`Invoices`,
  `AutoPost`, `Posting`), bank matching (`BankMatch`) and decimal amounts (`Amounts`).
- **Stock** (`Stock`), **bookings** (`Bookings`) and **depreciation** (`DepreciationPlan`,
  `Depreciation`, `DepService`).

`Text`, `Integers`, `Options` and `Sets` hold digits, 64-bit wrap-around, absent values, finite
sums and orders of ranging over a Go map. Time is an integer, amounts are mathematical integers
except where `Amounts` and `PriceEval` say otherwise, and a hash is any function (for the commitment theorem:
any whose output is 64 hexadecimal digits). A database transaction is an all-or-nothing step.

## Where the code differs from its own documentation

- `backend/internal/dynprice/expr.go:10-17` documents one optional minus per factor, lower-case
  names and digits on both sides of a decimal point. The code also accepts repeated minus
  signs, any letter case, `5.` and `.5`; `PriceSyntax.Wf` is the grammar of the code.
- `backend/internal/finance/autopost.go:5-8` says that concurrent racers return the existing
  entry instead of posting twice. They do return it, but a racer that loses has already put its
  own entry into the ledger (`AutoPost.RaceDoublePosts`). A document has exactly one entry if and
  only if each post step for it was taken while the ledger had none (`AutoPost.OneEntryIff`); that
  is ensured when calls for one document look for its row only while no other call for it is
  pending (`AutoPost.ExclusiveFindsPostOnce`), and can fail from the moment one looks and finds
  no row while another is pending (`AutoPost.OverlapDoublePosts`).
- History rows are never mutated (`backend/internal/documentsvc/ecm.go:375-376`), but the bytes
  behind them can be: storage keys are formatted texts, and a name with a slash and the end of
  another key behind it repeats that key. `KeyCollisions.NamesWithSlashLoseBytes` is such a run.
  Which names are safe depends on how many files a store gets and when it was opened: for every
  bound on the files and every opening clock reading, `KeyCollisions.UploadSafeIff` says exactly
  which names can be allowed without any run losing bytes. A file's base name always can.
- The chain's canonical text (`backend/internal/finance/domain.go:138-148`) separates fields
  with `|` and parts of a leg with `:`. If references and labels hold both, two different entries
  can have the same text (`Ambiguity.SeparatorsMakeAmbiguous`). Forbidding one character in them
  rules this out if and only if it is one of these two (`Ambiguity.UnambiguousIff`).
- A close does not check that the retained account is a balance-sheet account. Closing leaves
  every revenue and expense account at zero if and only if it is one (`YearEnd.CloseZeroesIff`);
  `YearEnd.CloseIntoRevenue` is a close that does not.
- A booking that arrives under the id of a live booking is not counted against it
  (`Bookings.ReusedIdOverbooks`). The ids that are safe to arrive with in every run are
  exactly those up to 1 (`Bookings.SafeIdIff`), which no booking can have, as the first id the
  store hands out is a resource's. The request handler sets 0.
- Bank matching is documented as matching dates within a window
  (`backend/internal/finance/bankimport.go:293-296`), but `time.Time.Sub` saturates and the
  least 64-bit integer is its own negation. A line dated 2^63 nanoseconds (292 years) or more
  after a transaction of its amount is within every window (`BankMatch.FarLineMatches`);
  `BankMatch.GapTestIff` says exactly when the test is the distance test.
- The amount reader is documented for plain decimals
  (`backend/internal/finance/bankimport.go:121-122`). Such texts are read exactly
  (`Amounts.ReadsAmount`), but each part may also carry a sign of its own: `1.-5` reads as 0.95
  (`Amounts.SignsInside`).
- With negative stock allowed, an emptied position can keep a value (`Stock.ValueWithoutStock`,
  `Stock.RefillFromBelowZero`).
- An invoice whose net is zero can be validated but never posted (`Invoices.InvoiceEntryValid`,
  `Invoices.GiftNeverPosts`), and a depreciation plan with a zero amount can be created but never
  completed (`Depreciation.CompletionIff`, `DepreciationPlan.LinearPositiveIff`).

## Model

| member | source | states |
|---|---|---|
| `PriceSyntax.ParseComplete` | backend/internal/dynprice/expr.go:34-201 | every text derivable from the grammar, with any blanks between tokens and behind it, is accepted with the tree of its derivation |
| `PriceSyntax.ParseSound` | backend/internal/dynprice/expr.go:34-201 | every accepted text is a derivation of the grammar followed by blanks, with the same tree |
| `PriceSyntax.ParseIffDerivation` | backend/internal/dynprice/expr.go:34-201 | a text parses to a tree if and only if some derivation of the grammar spells it and has that tree |
| `PriceSyntax.Unambiguous` | backend/internal/dynprice/expr.go:58-131 | two derivations of one text have the same tree: precedence and associativity leave no choice |
| `PricePrinting.ParseUndoesPrinting` | backend/internal/dynprice/expr.go:34-201 | an expression printed with only the needed parentheses, and any blanks between tokens, parses back to exactly that expression |
| `PricePrinting.PrintingInjective` | backend/internal/dynprice/expr.go:34-201 | different expressions print differently |
| `PriceParser.Parser.SkipBlanks` | backend/internal/dynprice/expr.go:52-56 | the position moves past the longest run of blanks and nothing else changes |
| `PriceParser.Parser.ParseExpr` | backend/internal/dynprice/expr.go:58-76 | outcome, final position and node tree are those of the grammar's sum level, constants created earlier stay untouched, and it terminates on every text |
| `PriceParser.Parser.ParseTerm` | backend/internal/dynprice/expr.go:78-96 | the same for products and quotients |
| `PriceParser.Parser.ParseFactor` | backend/internal/dynprice/expr.go:98-132 | the same for minus signs, parentheses, numbers and names |
| `PriceParser.Parser.ParseNumber` | backend/internal/dynprice/expr.go:134-156 | the same for literals: the constant created has the literal's exact value, and a literal without digits or with two points is refused |
| `PriceParser.Parser.ParseName` | backend/internal/dynprice/expr.go:158-201 | the same for variables and calls, in any letter case |
| `PriceParser.ParseNodes` | backend/internal/dynprice/expr.go:34-45 | the object parser and the grammar agree on every text, including the error |
| `Rational.Rat.Add` | backend/internal/dynprice/expr.go:224-240 | overwriting the receiver gives the sum and keeps the denominator positive, also when receiver and operand are one object |
| `Rational.Rat.Quo` | backend/internal/dynprice/expr.go:241-253 | overwriting the receiver gives the exact quotient for every non-zero divisor |
| `PriceEval.NodeMeaningIsMeaning` | backend/internal/dynprice/expr.go:204-271 | on trees the parser builds, what eval computes is the real-number meaning of the parsed expression |
| `PriceEval.EvalNode` | backend/internal/dynprice/expr.go:204-271 | returns the meaning of the tree in a new rational and changes no rational that existed before, so any number of evaluations agree |
| `PriceEval.OnlyDivisionFails` | backend/internal/dynprice/expr.go:241-253 | the only way an expression has no value is a division by zero |
| `PriceEval.Eval` | backend/internal/dynprice/expr.go:294-304 | parse error, zero divisor, result outside int64, or the meaning rounded half away from zero: exactly which one, for every text and input |
| `PriceEval.EvalDeterministic` | backend/internal/dynprice/expr.go:294-304 | that contract leaves no freedom: two outcomes allowed for one call are equal |
| `PriceEval.EvalOfPrinted` | backend/internal/dynprice/expr.go:294-304 | evaluating a printed expression fails only on a zero divisor or an int64 overflow and otherwise rounds the expression's meaning |
| `Literals.LiteralMeaning` | backend/internal/dynprice/expr.go:134-156 | a literal means the number it spells place by place: units before the point, tenths, hundredths and so on behind it |
| `Literals.TrailingZero` | backend/internal/dynprice/expr.go:134-156 | without decimals a constant is its digits, and a zero behind the point changes nothing |
| `Literals.EvalOfLiteral` | backend/internal/dynprice/expr.go:294-304 | evaluating a literal gives the number it spells, rounded, or the range error |
| `Literals.EvalOfMarkUp` | backend/internal/dynprice/expr.go:294-304 | evaluating `base * ` and a literal gives the base times the number it spells, rounded, or the range error |
| `Literals.FifthOnTop` | backend/internal/dynprice/expr.go:294-304 | `base * 1.2` over a base of 1000 is 1200 |
| `Rounding.RoundHalfUp` | backend/internal/dynprice/expr.go:274-291 | the result differs from the fraction by at most one half, ties going to the larger magnitude |
| `Rounding.RoundsMonotone` | backend/internal/dynprice/expr.go:274-291 | rounding is monotone across any representations of the two fractions |
| `Rounding.RoundsUnique` | backend/internal/dynprice/expr.go:274-291 | the rounded value depends on the rational only, not on the fraction that represents it |
| `Rounding.RoundsOdd` | backend/internal/dynprice/expr.go:274-291 | rounding commutes with negation, in both directions |
| `Rounding.RoundsIsReal` | backend/internal/dynprice/expr.go:274-291 | rounding the fraction is rounding the real number it denotes |
| `Paths.SplitPath` | backend/internal/documentsvc/ecm.go:99-117 | the segments are those of the trimmed path, or the error of the first bad segment |
| `Paths.SegmentsOfText` | backend/internal/documentsvc/ecm.go:99-117 | splitting the text of clean names gives back exactly these names |
| `Paths.PathTextInjective` | backend/internal/documentsvc/ecm.go:205-219 | different name sequences have different path texts |
| `FolderTree.StepKeeps` | backend/internal/documentsvc/ecm.go:152-254 | creating, moving and ensuring keep a forest: acyclic, parents in the same entity, unique sibling names |
| `FolderTree.Run` | backend/internal/documentsvc/ecm.go:152-254 | so does every run from the empty table |
| `FolderTree.CreateIff` | backend/internal/documentsvc/ecm.go:152-166 | a folder is created if and only if its trimmed name is valid, its parent exists in the entity and no folder beside it has the name; it then lies below that parent, and no other folder changes |
| `FolderTree.CreatedPath` | backend/internal/documentsvc/ecm.go:152-219 | the new folder's path is its parent's path, a slash and the trimmed name |
| `FolderTree.MoveIff` | backend/internal/documentsvc/ecm.go:170-201 | a move succeeds if and only if folder and target exist in the entity, the target is not inside the folder, and no other folder there has the name; it changes that folder's parent and nothing else |
| `FolderTree.CycleGuardIsExact` | backend/internal/documentsvc/ecm.go:170-201 | a move keeps the forest if and only if the target is not inside the moved subtree, which is what the guard tests |
| `FolderTree.NamesInjective` | backend/internal/documentsvc/ecm_memory.go:15-31 | within an entity a folder is determined by its names from the root |
| `FolderTree.PathsDistinct` | backend/internal/documentsvc/ecm.go:205-219 | two folders of an entity with the same rendered path are the same folder |
| `FolderTree.PathOfEnsured` | backend/internal/documentsvc/ecm.go:205-254 | rendering the folder an ensured path returns gives the path's canonical text up to depth 256, the root path creates nothing, and no existing folder changes |
| `FolderTree.EnsuredOfPath` | backend/internal/documentsvc/ecm.go:205-254 | ensuring the rendered path of a folder returns that folder and creates nothing |
| `FolderTree.EnsureKeeps` | backend/internal/documentsvc/ecm.go:223-254 | ensuring adds only folders on the asked path and ends at it |
| `FolderTree.MoveRewritesPaths` | backend/internal/documentsvc/ecm.go:170-201 | a move replaces the path prefix of exactly the moved subtree and leaves every other path alone |
| `FolderStore.Store.StoreFolder` | backend/internal/documentsvc/ecm_memory.go:15-31 | for any parent and name: refuses a bad name, then an occupied slot, otherwise inserts at the next id; the forest is kept when the parent exists and the name is trimmed, as the service ensures |
| `FolderStore.Store.FindFolder` | backend/internal/documentsvc/ecm_memory.go:43-52 | the scan in any order finds the one folder in the slot |
| `FolderStore.Store.CreateFolder` | backend/internal/documentsvc/ecm.go:152-166 | the new table and result are those of the creation step, on trimmed names |
| `FolderStore.Store.MoveFolder` | backend/internal/documentsvc/ecm.go:170-201 | the ancestor walk terminates and the new table and result are those of the move step |
| `FolderStore.Store.RenderPath` | backend/internal/documentsvc/ecm.go:205-219 | the upward walk gives the path from the root, or refuses one deeper than 256 |
| `FolderStore.Store.EnsureFolderPath` | backend/internal/documentsvc/ecm.go:223-254 | the loop over the segments has the effect and result of the recursive ensure step |
| `StorageKeys.KeysInjective` | backend/internal/documentsvc/ecm.go:323-343 | for names that are not key-like in a store with so many files and this opening clock reading, equal key texts come from the same entity, scope, name and clock reading, or file id and version |
| `StorageKeys.NotKeyLike` | backend/internal/documentsvc/ecm.go:323-343 | names without a slash, or without a hyphen, are not key-like in any store |
| `FileHistory.StoreShaped` | backend/internal/documentsvc/ecm.go:303-364 | an upload under any name keeps all version rows, leaves a failed call without effect, and adds exactly one version to the one file of that name in the folder, with the first 64 MiB uploaded, their size and hash, and the type asked for or the default |
| `FileHistory.StoreRecords` | backend/internal/documentsvc/ecm.go:303-364 | an upload fails only for a folder that does not exist in the entity; a new file is recorded as asked for, a further version leaves the file's own data alone, and both note their author and the formatted key |
| `FileHistory.RestoreShaped` | backend/internal/documentsvc/ecm.go:377-425 | for any names a restore succeeds exactly for versions 1 to current and appends one version with the bytes now stored for the old one, their size and hash, and its type |
| `FileHistory.RowsAreAppendOnly` | backend/internal/documentsvc/ecm.go:276-425 | in every run, under any names, each file's versions are 1 to current without gaps, its row equals the last one, and no earlier version row changes |
| `FileHistory.StoreKeeps` | backend/internal/documentsvc/ecm.go:303-364 | an upload under a name that is not key-like, at a later clock reading, also keeps every stored byte, as long as the store stays within its bound on files |
| `FileHistory.RestoreKeeps` | backend/internal/documentsvc/ecm.go:377-425 | in a store of such names a restore keeps every stored byte and appends one version with the recorded bytes, size, type and hash, and changes nothing for the current one |
| `FileHistory.HistoryIsAppendOnly` | backend/internal/documentsvc/ecm.go:276-425 | in every run whose names are not key-like, whose clock goes on and which stays within the bound on files, no version row and no stored byte ever changes, and every version's bytes match its size and hash |
| `FileHistory.BaseNamesKeepHistory` | backend/internal/documentsvc/ecm.go:276-425 | the same from the empty store for names without a slash, as the upload handler passes them |
| `KeyCollisions.UploadSafeIff` | backend/internal/documentsvc/ecm.go:323-344 | for each bound on the files (two or more) and each opening clock reading: besides names that are not key-like, a name can be allowed without any run from the empty store losing a recorded byte if and only if it is not key-like itself |
| `KeyCollisions.NamesWithSlashLoseBytes` | backend/internal/documentsvc/ecm.go:341-346 | a run of four uploads after which two files' second versions have one key and the first file's bytes are gone |
| `FileService.FindByFolderName` | backend/internal/documentsvc/ecm_memory.go:86-95 | finds a file of the folder and name exactly if there is one |
| `FileService.FindVersion` | backend/internal/documentsvc/ecm_memory.go:135-150 | finds the row of a version number exactly if there is one |
| `FileService.Service.CreateVersion` | backend/internal/documentsvc/ecm_memory.go:108-121 | refuses a version number the file already has, otherwise appends the row |
| `FileService.Service.AppendVersion` | backend/internal/documentsvc/ecm.go:341-364 | bytes, version row and file row advance together to the next version |
| `FileService.Service.UploadEx` | backend/internal/documentsvc/ecm.go:276-363 | resolves the folder, then has exactly the effect of the upload step on rows, versions and bytes |
| `FileService.UploadLands` | backend/internal/documentsvc/ecm.go:284-302 | an upload's own path wins over its filing rule's and either over the folder id, and the path of the file's folder is the canonical text of the one asked for |
| `FileService.RefusedUpload` | backend/internal/documentsvc/ecm.go:284-302 | resolving the folder fails if and only if the path asked for is bad, or a rule is wanted and there is none, and then creates nothing |
| `FileService.Service.RestoreVersion` | backend/internal/documentsvc/ecm.go:377-425 | has exactly the effect and result of the restore step |
| `Entries.Validate` | backend/internal/finance/domain.go:79-134 | accepts exactly entries with a journal, at least two one-sided positive legs on accounts, and equal positive totals; its zero-entry error can never occur |
| `Calendar.Rfc3339Injective` | backend/internal/finance/domain.go:138-148 | the formatted posting time determines the second |
| `Canonical.SerializeInjective` | backend/internal/finance/domain.go:138-148 | if one of the two separators occurs in no reference and no label, the hashed text determines previous hash, journal, reference, every leg, and the second of the date |
| `Canonical.SameContentSameText` | backend/internal/finance/domain.go:138-148 | and nothing else is in the text |
| `Canonical.ContentAt` | backend/internal/finance/domain.go:138-148 | the text of an entry dated at a civil time: its parts in order, with the time as year-month-dayThour:minute:secondZ |
| `Ambiguity.SeparatorsMakeAmbiguous` | backend/internal/finance/domain.go:138-148 | with both separators in a label, two different valid entries have the same hashed text |
| `Ambiguity.UnambiguousIff` | backend/internal/finance/domain.go:138-148 | forbidding one character in references and labels makes valid entries' texts unambiguous if and only if it is one of the two separators |
| `Calendar.CivilOfSecond` | backend/internal/finance/domain.go:138-148 | the calendar, with the days of each month and the leap years, reads back every existing date from its second |
| `Chain.VerifyChain` | backend/internal/finance/domain.go:151-166 | accepts exactly the sequences in which every entry names its predecessor's hash and carries the hash of its own content |
| `Chain.RedatedRefused` | backend/internal/finance/domain.go:151-166 | moving any entry of an accepted chain to another second makes it refused or exhibits a hash collision, whatever references and labels hold |
| `Chain.TamperedRefused` | backend/internal/finance/domain.go:151-166 | the same for any change to journal, reference, date or legs, if one separator occurs in neither version |
| `Chain.HeadCommitsToHistory` | backend/internal/finance/domain.go:138-166 | two accepted chains that avoid one of the separators and have the same last hash have the same length and agree on every entry, or exhibit two texts with the same hash |
| `Ledger.PostSound` | backend/internal/finance/store.go:457-481 | posting keeps every stored entry posted and balanced and every entity's chain verifiable, whatever entities and journals interleave |
| `Ledger.PostsIff` | backend/internal/finance/store.go:457-481 | a balanced entry posts if and only if its date is before the start or after the end of every locked year of its entity; nothing but id, status and hashes then differs from what was asked for |
| `Ledger.TrialShowsSums` | backend/internal/finance/store.go:495-511 | the trial balance shows for each account the sums of its legs in posted entries |
| `Ledger.TrialBalances` | backend/internal/finance/store.go:495-511 | over balanced entries the debit and credit columns of every trial balance have equal totals |
| `Closing.ClosingLegsSums` | backend/internal/finance/tax.go:181-198 | the closing legs reverse each closed account's net exactly, touch nothing else, and are out of balance by the income |
| `Closing.IncomeIsNetIncome` | backend/internal/finance/tax.go:181-198 | the income does not depend on the order in which the trial balance is ranged over |
| `Closing.NoLegsIff` | backend/internal/finance/tax.go:199-201 | there is nothing to close exactly when every revenue and expense account nets to zero |
| `Closing.ClosingValid` | backend/internal/finance/tax.go:168-211 | the built entry passes validation exactly when no closed account has a wrong-sided balance (and the journal is given) |
| `Closing.SortLegsKeeps` | backend/internal/finance/tax.go:209 | sorting orders the legs by account and changes no sum |
| `Closing.ClosingEffect` | backend/internal/finance/tax.go:168-211 | a built entry balances, zeroes every revenue and expense account and moves the retained account by the net income |
| `LedgerStore.BuildClosingLines` | backend/internal/finance/tax.go:168-211 | the two loops give the legs, income and errors of the closing function, for the order actually ranged over |
| `LedgerStore.Store.PostEntry` | backend/internal/finance/store.go:457-481 | validation, year scan and last-hash scan: exactly the new books and outcome of the posting step |
| `LedgerStore.Store.TrialBalance` | backend/internal/finance/store.go:495-511 | the nested loops compute the trial balance of the entity's posted entries |
| `LedgerStore.Store.Accounts` | backend/internal/finance/store.go:381-391 | the listed accounts, in any order, make the entity's chart |
| `LedgerStore.Store.FiscalYearByID` | backend/internal/finance/store_phase2.go:530-539 | the first year with the id in the entity, or not found |
| `LedgerStore.Store.SetFiscalYearLocked` | backend/internal/finance/store_phase2.go:553-563 | sets the lock of that year and of no other |
| `LedgerStore.Store.LogClose` | backend/internal/finance/closelog.go:89-100 | appends one row at the next id |
| `LedgerStore.Store.ListCloseLog` | backend/internal/finance/closelog.go:103-114 | the year's rows, oldest first |
| `LedgerStore.Store.CloseYear` | backend/internal/finance/service.go:81-136 | the whole new state and outcome of the close step |
| `LedgerStore.Store.ReopenYear` | backend/internal/finance/service.go:149-167 | the whole new state and outcome of the reopen step |
| `FiscalYears.StepAudited` | backend/internal/finance/service.go:81-167 | every operation keeps: each year's audit rows alternate close and reopen, starting with close, and the year is locked exactly when the last row is a close |
| `FiscalYears.LockedYearsTakeNoEntries` | backend/internal/finance/store.go:457-481 | an operation adds at most one entry, dated before the start or after the end of every year of its entity locked before it |
| `FiscalYears.CloseChanges` | backend/internal/finance/service.go:81-136 | a successful close adds one entry, dated as asked for or at the year's end, locks that year, and logs the entry; a refused one changes nothing |
| `FiscalYears.CloseRefusals` | backend/internal/finance/service.go:81-136 | no such year, a locked year, a date outside it and an unknown retained account are refused, each with its own error and in this order |
| `FiscalYears.ReopenChanges` | backend/internal/finance/service.go:149-167 | reopening succeeds if and only if the first year with the id is locked; it unlocks that year, logs the act and touches no entry |
| `YearEnd.CloseEffect` | backend/internal/finance/service.go:81-136 | after a successful close revenue and expense accounts net to zero, the retained account moved by exactly revenue minus expense, and both columns of all other accounts are unchanged |
| `YearEnd.CloseZeroesIff` | backend/internal/finance/service.go:81-136 | profit and loss is zero after a close if and only if the retained account is neither revenue nor expense |
| `YearEnd.CloseIntoRevenue` | backend/internal/finance/tax.go:173-177 | books of one sale whose close into the revenue account succeeds and leaves the profit there |
| `YearEnd.CloseSucceedsIff` | backend/internal/finance/service.go:81-136 | a close succeeds if and only if the year exists, its start and end enclose the closing date (by default the end), no locked year of the entity does, a journal and a known retained account are given, net income is not zero, and every closed account has its normal side |
| `YearEnd.RecloseRefused` | backend/internal/finance/service.go:81-167 | closing again is refused, and changes nothing, after any run of reopenings, new years, and postings without a revenue or expense leg |
| `YearEnd.LockedRun` | backend/internal/finance/store.go:463-467 | a locked year that is not reopened stays as it is over every run, and every entry added for its entity is dated before its start or after its end |
| `YearEnd.ReachableBooks` | backend/internal/finance/store.go:457-511 | along every run from empty books: trails tell the locks, all entries balance, all chains verify, and every trial balance has equal columns |
| `Invoices.AmountsHalfUp` | backend/internal/documents/kernel.go:199-214 | net and VAT of a valid priced line are within half a minor unit of the exact amounts, halves going up |
| `Invoices.LineKinds` | backend/internal/documents/kernel.go:168-214 | which lines are accepted, kind by kind, and that only normal ones carry amounts |
| `Invoices.Sum` | backend/internal/documents/kernel.go:226-237 | the sums of line net and VAT, or an error for the whole document if any line is invalid |
| `Invoices.VatSlices` | backend/cmd/api/main.go:766-773 | the slices list each rate once with the VAT of its lines, in some order |
| `Invoices.GroupingPreserves` | backend/cmd/api/main.go:766-769 | each group holds the VAT of its rate and the groups add up to the document's VAT |
| `Invoices.SlicesTotal` | backend/cmd/api/main.go:770-773 | slices in any order add up to the same total |
| `Invoices.BuildLegs` | backend/internal/finance/autopost.go:242-264 | control, revenue and one leg per non-zero rate, or the first missing binding |
| `Invoices.BoundIff` | backend/internal/finance/autopost.go:200-264 | an entry is built if and only if partner, product and every rate with VAT are bound, each under its own key or the default |
| `Invoices.VatLegsByRate` | backend/internal/finance/autopost.go:254-264 | the VAT legs credit, rate by rate, exactly the VAT of the document |
| `Invoices.InvoiceEntryValid` | backend/internal/finance/autopost.go:250-266 | for every document whose totals are those of its lines, the entry passes validation if and only if the net is positive |
| `Invoices.GiftNeverPosts` | backend/internal/finance/autopost.go:250-266 | a valid, loaded and fully bound invoice of zero net whose entry does not pass |
| `Invoices.InvoiceEffect` | backend/internal/finance/autopost.go:250-264 | account by account: the account bound to the partner, or else to the default, is debited the gross amount, revenue credited the net, and each VAT account credited the VAT of the rates bound to it, a rate's own binding winning over the default |
| `AutoPost.CompletedCallsAgree` | backend/internal/finance/autopost.go:216-283 | in every interleaving all completed calls for a document answer with the entry of its one row, and exactly one of them created it |
| `AutoPost.RowsNeverChange` | backend/internal/finance/autopost.go:151-160 | no interleaving changes a posting row once it exists |
| `AutoPost.EntriesCountPosters` | backend/internal/finance/autopost.go:216-283 | the ledger holds one entry per call that passed its post step, in every interleaving |
| `AutoPost.OneEntryIff` | backend/internal/finance/autopost.go:264-276 | in every interleaving a recorded document has exactly one ledger entry if and only if each post step for it was taken while the ledger had none |
| `AutoPost.ExclusiveFindsPostOnce` | backend/internal/finance/autopost.go:225-276 | if calls for a document look for its row only while no other call for it is between look and record, it has exactly one entry once recorded and at most one before, whatever else interleaves |
| `AutoPost.OverlapDoublePosts` | backend/internal/finance/autopost.go:225-276 | from every reachable state in which a call looks for the row of an unrecorded document while another call for it is pending, before or after its post step, the steps that follow can leave the document two entries |
| `AutoPost.RaceDoublePosts` | backend/internal/finance/autopost.go:225-276 | a run in which two callers find no row leaves two entries for one invoice |
| `AutoPost.AloneIsRun` | backend/internal/finance/autopost.go:216-283 | a call nobody interrupts is one of the interleavings, with the stated effect; a replay leaves rows and ledger alone |
| `AutoPost.SequentialSingle` | backend/internal/finance/autopost.go:216-283 | calls one after another leave exactly one entry per recorded document and none for others |
| `Posting.Poster.RecordPosting` | backend/internal/finance/autopost.go:151-160 | inserts the row if and only if the document has none |
| `Posting.Poster.PostValidated` | backend/internal/finance/autopost.go:216-283 | the new books, rows and answer of the call, through the real ledger store |
| `Posting.CallAnswers` | backend/internal/finance/autopost.go:216-283 | only customer and supplier invoices are posted; a recorded one is answered from its row, a created entry carries the document's reference, date and legs, and every other call changes nothing |
| `Posting.OneEntryPerDocument` | backend/internal/finance/autopost.go:216-283 | along every sequence of automatic and manual postings the books hold one entry per recorded document besides the manual ones, and rows never change |
| `Posting.ReplayAnswersTheSame` | backend/internal/finance/autopost.go:225-227 | a repeated call changes nothing and answers with the same entry, whatever its environment has become |
| `Posting.RepeatedInRun` | backend/internal/finance/autopost.go:225-227 | a sequence of a call and its repetition leaves what the call alone leaves |
| `Posting.FirstCallPostsIff` | backend/internal/finance/autopost.go:216-283 | a first call for a loaded, fully bound invoice posts if and only if its net is positive and its date is before the start or after the end of every locked year of its entity |
| `Posting.AloneMatches` | backend/internal/finance/autopost.go:216-283 | the call on the books has the effect of the interleaving model's uninterrupted call |
| `BankMatch.MatchTransactions` | backend/internal/finance/bankimport.go:297-322 | the nested loops with the used set report exactly the greedy matching, for the window or, if that is negative, for 0 |
| `BankMatch.GreedyIsMaximal` | backend/internal/finance/bankimport.go:297-322 | matches are unreconciled, equal in amount and pass the code's 64-bit date test, no id is used twice, and whatever an unmatched line could take is taken by an earlier line |
| `BankMatch.GapTestIff` | backend/internal/finance/bankimport.go:309-313 | for every window the code's date test agrees with the distance test if and only if the line is dated less than 2^63 nanoseconds after the transaction and, for the largest window, not that much before it |
| `BankMatch.MatchWithinWindowIff` | backend/internal/finance/bankimport.go:297-322 | a greedy match is unreconciled and equal in amount, and it is within the window if and only if its dates meet that condition |
| `BankMatch.FarLineMatches` | backend/internal/finance/bankimport.go:309-313 | with a window of 0, a line dated 2400 takes a transaction dated 2024 |
| `BankMatch.GreedyHalfOptimal` | backend/internal/finance/bankimport.go:297-322 | the number matched is at least half that of any matching valid by the same test |
| `BankMatch.HalfIsSharp` | backend/internal/finance/bankimport.go:297-322 | two lines and two transactions where greedy matches one and another valid matching two |
| `Amounts.ParseDecimalMinor` | backend/internal/finance/bankimport.go:123-170 | the step-by-step rewriting computes the parse function, wrapping at 64 bits |
| `Amounts.ReadingUndoesWriting` | backend/internal/finance/fec.go:98-111 | reading an exported amount gives it back for every 64-bit integer, including the least one, negative values below one unit, and the padding |
| `Amounts.WritingInjective` | backend/internal/finance/fec.go:98-111 | different amounts are written differently |
| `Amounts.ReadsAmount` | backend/internal/finance/bankimport.go:123-163 | an optional sign, digits, and decimals behind a point or a comma: up to two decimals are read exactly, whichever part is left out, and more are refused |
| `Amounts.ReadsGroups` | backend/internal/finance/bankimport.go:135-140 | digit groups with commas between them and a decimal point are read as without the commas |
| `Amounts.SignsInside` | backend/internal/finance/bankimport.go:141-160 | `1.-5`, `1.+5` and `--5` are accepted, as 95, 105 and 500 |
| `Stock.Store.AppendMovement` | backend/internal/catalog/store.go:297-309 | the new ledger, level and outcome of the movement |
| `Stock.ApplyIff` | backend/internal/catalog/domain.go:134-201 | when a movement succeeds, and the quantity and value it leaves: a receipt adds its cost, an issue takes its share at the average rounded half up |
| `Stock.RunDerived` | backend/internal/catalog/store.go:297-309 | along every run each stored level is what replaying its movements gives |
| `Stock.StockRuns` | backend/internal/catalog/domain.go:181-201 | along every run quantity is the sum of movements and value is not negative; without negative stock, quantity is not negative and empty stock has no value |
| `Stock.RefillFromBelowZero` | backend/internal/catalog/domain.go:190-191 | a receipt that refills a negative position to zero leaves no value if and only if there was none and the receipt is free |
| `Stock.ValueWithoutStock` | backend/internal/catalog/domain.go:181-201 | with negative stock allowed, a run that ends at quantity 0 and value 15 |
| `Stock.IssueDrift` | backend/internal/catalog/domain.go:192-199 | one issue of out units moves the average so that twice the cross difference is at most out times the quantity, clamped or not |
| `Stock.IssuesDrift` | backend/internal/catalog/domain.go:192-199 | a series of issues drifts no further than one issue of the same number of units could |
| `Stock.ValueTracksExact` | backend/internal/catalog/domain.go:165-201 | over any history that never goes short, the stored value is within half a minor unit per issued unit of the unrounded weighted average |
| `Stock.LevelsTrackExact` | backend/internal/catalog/store.go:297-309 | the same for every level of every run that never allows negative stock |
| `Bookings.OverlapsIsSharedInstant` | backend/internal/booking/domain.go:111-113 | two windows overlap if and only if some instant is in both |
| `Bookings.FitsCapacity` | backend/internal/booking/domain.go:121-132 | the loop accepts exactly when the competing seats and the wanted ones fit |
| `Bookings.Store.CreateResource` | backend/internal/booking/store.go:195-210 | the whole new state and outcome, codes unique per entity |
| `Bookings.Store.CreateBooking` | backend/internal/booking/store.go:234-260 | the whole new state and outcome, the bookings ranged over in any order |
| `Bookings.Store.SetBookingStatus` | backend/internal/booking/store.go:284-301 | the whole new state and outcome; stale versions and illegal moves change nothing |
| `Bookings.CreateKeepsCapacity` | backend/internal/booking/store.go:234-260 | the window-sum check implies the bound at every instant, for an incoming id that names no stored booking |
| `Bookings.SafeIdIff` | backend/internal/booking/domain.go:121-132 | after every run of requests with cleared ids, a booking arriving under a given id keeps every resource within capacity, whatever it asks for, if and only if the id is at most 1 |
| `Bookings.NeverOverCapacity` | backend/internal/booking/store.go:234-301 | over every run of the three operations, at every instant, the seats of whoever has booked or checked in stay within the resource's capacity |
| `Bookings.UnfinishedFit` | backend/internal/booking/handler.go:121-123 | over every run of requests, which also set the status of a new booking, the seats of everyone neither completed nor canceled stay within the capacity |
| `Bookings.ReserveIff` | backend/internal/booking/store.go:234-260 | a valid booking of an active resource is refused if and only if the seats others hold during its window, booked or checked in, and its own exceed the capacity; otherwise it is stored as asked for |
| `Bookings.ReserveRefuses` | backend/internal/booking/store.go:234-245 | no other booking is accepted |
| `Bookings.AdvanceIff` | backend/internal/booking/store.go:284-301 | a status changes if and only if the version is current and the move is one of the five forward ones |
| `Bookings.OpenIff` | backend/internal/booking/store.go:195-210 | a resource is opened if and only if its fields are in order and its entity has no other with its code |
| `Bookings.ReusedIdOverbooks` | backend/internal/booking/domain.go:121-132 | for every id a booking can have, a run of requests with cleared ids after which an accepted booking under that id puts two guests into a resource for one |
| `Bookings.LifecycleAdvances` | backend/internal/booking/domain.go:98-107 | over every run a booking keeps its window, seats and resource, its status only advances, and its version counts the changes |
| `DepreciationPlan.BuildSchedule` | backend/internal/assets/depreciation.go:95-139 | both loops build the planned amounts, numbered from 1, for exactly the valid terms |
| `DepreciationPlan.PlanSumsToCost` | backend/internal/assets/depreciation.go:95-139 | every plan adds up to exactly the cost |
| `DepreciationPlan.PlanNotNegative` | backend/internal/assets/depreciation.go:95-139 | no planned amount is negative |
| `DepreciationPlan.AmountIsShare` | backend/internal/assets/depreciation.go:103-136 | before the last period a linear plan takes the cost's part rounded down, and a declining one the rate's share of the book value rounded half up |
| `DepreciationPlan.DegressiveDeclines` | backend/internal/assets/depreciation.go:117-136 | non-final declining amounts never increase |
| `DepreciationPlan.LinearPositiveIff` | backend/internal/assets/depreciation.go:103-116 | a linear plan has no zero amount if and only if the cost is at least the number of periods |
| `DepreciationPlan.DegressivePositiveIff` | backend/internal/assets/depreciation.go:117-136 | a declining plan has no zero amount if and only if it has one period, or the book value before the last two periods, times the rate and times its complement, reaches half a unit |
| `DepService.Store.CreateSchedule` | backend/internal/assets/schedule_store.go:112-134 | the whole new table and outcome, one schedule per asset |
| `DepService.Store.MarkSchedulePosted` | backend/internal/assets/schedule_store.go:158-185 | the whole new table and outcome, field by field as the code updates them |
| `DepService.Store.SetAssetStatus` | backend/internal/assets/store.go:283-300 | the whole new table and outcome |
| `DepService.Store.Basis` | backend/internal/assets/dep_service.go:172-185 | the loop over an asset's schedules gives total cost and total depreciation in any order |
| `DepService.BuildDisposal` | backend/internal/assets/dep_service.go:199-214 | the appended legs are proceeds, depreciation, loss, cost and gain, each only when it applies |
| `DepService.Service.PostOn` | backend/internal/assets/dep_service.go:84-115 | ledger and schedule after the two steps, including what a failure in the second leaves in the ledger |
| `DepService.Service.Post` | backend/internal/assets/dep_service.go:55-75 | the same in a transaction: a failure leaves everything as it was |
| `DepService.Service.DisposeOn` | backend/internal/assets/dep_service.go:158-220 | ledger and asset after the two steps |
| `DepService.Service.Dispose` | backend/internal/assets/dep_service.go:136-156 | the same in a transaction |
| `Depreciation.PostSucceedsIff` | backend/internal/assets/dep_service.go:84-115 | posting the next period succeeds if and only if accounts and journal are given, the version is current, a period with a positive amount is left and no locked year contains the date; it then adds one entry of the planned amount from the accumulation account to expense and advances one period |
| `Depreciation.OpenIff` | backend/internal/assets/schedule_store.go:112-134 | a schedule is opened if and only if its terms are valid, nothing is posted, and its asset exists in the entity without a schedule |
| `Depreciation.MarkPostedIff` | backend/internal/assets/schedule_store.go:158-185 | an amount is marked if and only if the active schedule is current, has a period left and the cost covers the positive amount; the new row field by field |
| `Depreciation.ReachableSchedules` | backend/internal/assets/schedule_store.go:112-185 | over every run accumulated depreciation is the sum of the first posted plan amounts, a schedule is done exactly when all periods are posted, and then its plan has no zero amount and its whole cost is written off |
| `Depreciation.CompletionIff` | backend/internal/assets/schedule_store.go:158-185 | posting period after period completes a plan if and only if none of its amounts is zero |
| `Depreciation.DoneIsPaidOff` | backend/internal/assets/depreciation.go:75 | accumulated depreciation stays between 0 and cost, and equals the cost once the schedule is done |
| `Depreciation.DisposalBalances` | backend/internal/assets/dep_service.go:186-214 | the disposal entry passes validation for every cost, depreciation and proceeds, with the gain or loss that closes the gap |
| `Depreciation.DisposalEffect` | backend/internal/assets/dep_service.go:184-211 | what each account gets, also when accounts coincide: cash the proceeds, cost and depreciation taken off, and the difference to the net book value as the gain or the loss |
| `Depreciation.DisposeSucceedsIff` | backend/internal/assets/dep_service.go:158-220 | a disposal is refused only for missing accounts, negative proceeds, a stale version, a retired asset, no schedule, or a locked year; otherwise its entry is added and the asset is retired |
| `Depreciation.DisposeByScheduleIff` | backend/internal/assets/dep_service.go:158-220 | the same by the asset's one schedule: which accounts must be given for which amounts, and the bounds of every locked year |
| `Depreciation.SetStatusIff` | backend/internal/assets/store.go:283-300 | an asset's status changes if and only if the version is current and the move is one of the four allowed |
| `Depreciation.RetiredForGood` | backend/internal/assets/store.go:66-75 | over every run a retired asset stays as it is, so it is not disposed of twice |

## Left out

- HTTP handlers, routing, access control, the event bus, JSON, the frontend, and all SQL: the in-memory stores are the model, and a database transaction is an all-or-nothing step.
- 64-bit wrap-around outside `Amounts`, the range check of `PriceEval.Eval` and the date test of `BankMatch`: sums and products of amounts are mathematical integers, as the code does not check them.
- `big.Rat` keeps lowest terms; `Rational` does not reduce, and `Rounding.RoundsUnique` shows that the result cannot tell.
- Blanks and letters beyond ASCII in price expressions: the parser reads bytes, and the model has one character per byte.
- Clock readings are natural numbers, nanoseconds since 1970. That stored bytes stay is stated for a clock that moves on between uploads and for a store that never gets more files than nanoseconds had passed when it was opened (`FileHistory.Clock`); about version rows nothing is assumed. `KeyCollisions.UploadSafeIff` is about stores that may get two files or more.
- Filing-rule templates (`FilingPath`), text extraction, full-text search and share links: a filing rule arrives as the path it renders to.
- Directory and S3 storage: bytes live in a map.
- SHA-256 itself: hashes are function parameters.
- `sort.Slice` is not stable, so legs on one account may be swapped; `Closing.SortLegs` keeps their order, and no stated sum depends on it.
- Accounts, journals and assets are stored as given: their own field checks (`Account.Validate`, `Asset.Validate`, unique asset codes) add nothing to the properties here.
- Trimming and lower-casing of a depreciation method's name: schedules are stored only with the exact names, so the method is a value.
- The wall-clock date of depreciation and disposal entries is a parameter, as are creation and update stamps elsewhere.
- Which error a bad amount text gives: `Amounts.ParseAmount` does not tell them apart; the CSV, CAMT and date readers around it are not modelled.
- `ApplyRunningBalance`, `ImportTransactions`, `Transfer`, VAT returns, loans and tax charges: they would only add easier members.
- `SubtotalBlocks`, document status moves and reference numbering: settled by reading one function.
- Lots, products, warehouses and the transfer documents that produce paired movements.
- Memos and leg labels are as the code formats them, but no theorem speaks of their wording.
- The remaining columns of the accounting export (`BuildFECRows`, `WriteFEC`): formatting only.
- `time.Time` values outside years 0 to 9999 are formatted by `Calendar` with as many digits as needed; time zones are already UTC there.
