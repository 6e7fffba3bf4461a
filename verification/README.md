# Biggy: a verified model of its metadata algorithms

Biggy is a low-code application whose behaviour is held in metadata: tables, fields,
forms, workflows, approval chains, SLA policies, formulas, company trees.  This project
models the parts of it that are algorithms or protocols over that metadata and proves
what they promise.  `dafny verify dfyconfig.toml` checks the whole project.

Each file follows one source component.  Code that updates rows, dictionaries or lists
is a method or a class whose contract states the whole new state; the properties are
then proved about the functions those contracts name.  The files whose names end in
`Meaning` say what those functions come to in terms of the data alone: which trees,
designs, formulas and mappings pass, and which values and cells result.

| file | component |
|---|---|
| `FormRules.dfy`, `FormMeaning.dfy` | conditional form rules: rule trees, the cycle-rejecting order, one-pass masking evaluation, and what trees and verdicts mean |
| `FormTemplates.dfy`, `TemplateMeaning.dfy`, `TemplateDesign.dfy` | templates: capturing a form layout and mapping it onto another table, what each item becomes, and when the result is a valid design |
| `FormDesign.dfy`, `DesignMeaning.dfy` | validation of a form design before it is saved, previewed or published, and which designs pass |
| `FormDraft.dfy` | the draft, preview, publish protocol with versions and hashes |
| `SchemaIo.dfy`, `SchemaImport.dfy`, `SchemaRounds.dfy` | export and import of the model: the id remapping, the passes and transaction that do it, and repeated rounds |
| `Formula.dfy`, `FormulaMeaning.dfy` | the formula validator and evaluator, which formulas pass and which values they have |
| `Rollups.dfy`, `RecordWrites.dfy`, `RollupMeaning.dfy`, `RecordMeaning.dfy` | stored formula cells, with their lookups and rollups; record writes and the ripple that follows them; what the aggregates come to, and the plain cells after a write |
| `ForeignKeys.dfy` | what the database does to referring rows when rows are deleted |
| `Merge.dfy`, `MergeMeaning.dfy` | merging a duplicate record into a survivor, and the database after it cell by cell |
| `Topology.dfy` | the impact map: a bounded breadth-first search |
| `Workflow.dfy`, `Approvals.dfy`, `SignOff.dfy` | status graphs, approval requests, and a record governed by both |
| `Sla.dfy`, `SlaSweep.dfy`, `SlaVerdict.dfy` | SLA clocks, the breach and escalation sweep, and whether the verdict follows the running time |
| `Pull.dfy` | incremental pull from a peer by watermark |
| `Companies.dfy` | the company tree, the routes that edit it and its listing |
| `RateLimit.dfy` | the sliding-window limiter and the hourly sweep of its hits |
| `Texts.dfy`, `Wrappers.dfy` | the order of strings; option and result types |

What the original gets from outside is a parameter here: the finite decimal or the date a
text denotes, the arithmetic and text functions of formulas, the clock (integer
microseconds), the records a user may see, the ids the database hands out, which remote
requests succeed, what a preview or a local write comes to.  A request that holds row
locks is one atomic step.  A digest is taken to be injective: a hash is modelled by the
value it was taken of.

## Where the code does less than it seems to promise

Each is stated with the condition under which the promise holds.  The condition is exact
unless the line says otherwise.

- An approved request is applied without rechecking the record's state, so a status can
  leave its graph.  What would have to be checked before the call is `Sanctioned`
  (`SignOff.ApplicationLawfulIff`, over whole runs `SignOff.HistoryLawfulIff`); a run that
  fails is `SignOff.StaleApplicationLeavesTheGraph`.
- A merge copies a fill read before repointing, so a duplicate that points at itself where
  the survivor is blank hands over its own key: the result is the quotient exactly when
  there is no such column (`Merge.MergeIsQuotientIff`).  Otherwise, when records are deleted
  for good, the foreign key decides: the cell is emptied, the survivor is deleted with the
  duplicate, or the deletion is refused and the merge stops half done (`Merge.StaleCell`,
  `Merge.StaleSelfForGood`); a dead reference stays exactly where none of the stale ones
  cascades or forbids and one is not enforced (`Merge.DanglesIff`).  Into the trash the
  survivor has lost the value (`Merge.StaleCellTrashed`, `Merge.StaleSelfIsLost`).
- The ripple after a write reaches one level from the row as it is then, and stops where an
  evaluation raises.  A write leaves every formula cell right exactly when each row that it
  changed, or that reads what it changed, is visited before that or is right anyway
  (`RecordWrites.WriteAgreesIff`, over runs `RecordWrites.RunAgreesIff`).  For an update that
  raises nowhere this comes down to former parents (`RecordWrites.UpdateHarmlessIff`).
  Writes that fail it: a moved reference (`RecordWrites.MoveLeavesStale`), a removal into
  the trash or, under the default foreign key, for good, which clear the references before
  the ripple looks for them (`RecordWrites.TrashLeavesStale`,
  `RecordWrites.DeleteLeavesStale`), and an evaluation that raises
  (`RecordWrites.RaiseCutsShort`).
- An import loses an mn relation's on_delete, an empty display list, and a display column
  that is an FK created later in the relation loop (`SchemaIo.RoundTripIff`,
  `SchemaImport.ReplaceIsRoundTrip`).  The last one a store can hold
  (`SchemaIo.LateDisplayIsLost`), the first only an edited file
  (`SchemaIo.OnDeleteIsLost`); nothing can be lost a second time
  (`SchemaRounds.LossHappensOnce`).
- A pull asks for pages of `page_size` while the peer serves at most 200 rows a page, so a
  larger page size ends the paging early, and the rows not reached are never offered
  again (`Pull.LargePagesReach`, `Pull.UnreachedIsLost`, `Pull.PageOf250Loses`); a record
  that fails is lost as soon as a newer one is imported (`Pull.OfferedAgainIff`).
- The limiter's bound fails for windows over an hour, because the sweep forgets hits
  (`RateLimit.BoundHoldsIff`), and coming back exactly at the returned time can be too
  early (`RateLimit.FreedIff`, `RateLimit.ExactWaitCanFail`).
- Company routes do not check that a named parent exists: the companies stay a forest all
  along a run exactly when no accepted request names a missing one (`Companies.StepTreeIff`,
  `Companies.RunTreeIff`), and the one request that closes a cycle adds a company whose id
  was named before, below itself (`Companies.StepAcyclicIff`, `Companies.MissingParentCanCycle`).
- The states offered for a record go by any entry of a move, the check by its first, so an
  offer is accepted exactly when the first entry is open to the user: always when no move
  is listed twice (`Workflow.OfferedIsAcceptedIff`, `Workflow.OfferedCanBeRefused`).
- A preview of a stale draft counts if the live form is changed back before the publish:
  the preview ran against the form that is replaced exactly when the draft was not stale
  then (`FormDraft.PublishedWasPreviewed`, `FormDraft.StalePreviewCanPublish`).
- A formula may use a function's name as a value, and then reads a field that need not exist
  (`Formula.ValidatedReadsColumns`, `Formula.FunctionNameSlipsThrough`).
- An accepted formula can still raise an error other than FormulaError: on a row it has a
  value exactly when everything it asks for there is answered
  (`Formula.AcceptedHasValueIff`).  Some calls never are, and the validator lets them
  through (`Formula.TodayAccepted`, `Formula.TodayRaises`, `Formula.LoneLookupAccepted`,
  `Formula.LoneLookupRaises`); without them the library alone decides
  (`Formula.AcceptedHasValue`, a sufficient condition, since a call in a branch not taken is
  never evaluated).
- The breach action of an SLA clock is committed at most once, but fires again after each
  pass that failed and was rolled back (`SlaSweep.FiringsAre`, `SlaSweep.FailedPassFiresAgain`).
- Pausing an overdue SLA clock forgives the breach (`Sla.OverduePauseForgives`); without
  such a pause the verdict follows the running time (`SlaVerdict.VerdictFollowsRunningTime`,
  a sufficient condition).

## Model

| member | source | states |
|---|---|---|
| FormRules.Visit | app/form_rules.py:99-110 | the depth-first visit ends on every config; it extends the list by the name with all its dependencies before it, or exhibits a closed walk through an active name |
| FormRules.Order | app/form_rules.py:97-113 | succeeds exactly when the "rule refers to field" graph has no cycle, and then lists every name once with its dependencies before it |
| FormRules.WalkGoesBack | app/form_rules.py:97-113 | along any walk of references a dependency-first list is traversed strictly backwards |
| FormRules.OrderedIsAcyclic | app/form_rules.py:97-113 | a full dependency order exists only for an acyclic config |
| FormRules.MatchesReads | app/form_rules.py:70-94 | a rule tree reads nothing but the fields it refers to |
| FormRules.LockFields | app/form_rules.py:121-123 | exactly the permanently locked fields are overwritten by their trusted values |
| FormRules.States | app/form_rules.py:116-133 | fails exactly on cyclic rules; otherwise returns the only values and states that satisfy all rules on the final masked values, whatever dependency order is used |
| FormMeaning.HoldsIff | app/form_rules.py:62-94 | a comparison on a field holds exactly when its text is empty or not, contains the other, or compares with it: as decimals on number types and not at all when one is none, else as text |
| FormMeaning.MatchesIff | app/form_rules.py:70-94 | a rule tree is true exactly when one of the alternatives it multiplies out to has all its conditions true, each on a field that is present |
| FormMeaning.StatesMean | app/form_rules.py:116-133 | what a solution says of a field: shown, locked and required as its three rules are true on the final values, the value trusted when hidden or locked and submitted otherwise |
| Texts.BeforeIff | app/form_rules.py:81-91 | one text is before another exactly when it is a proper prefix or smaller at the first difference |
| FormRules.SettleSolves | app/form_rules.py:124-133 | the one masking pass satisfies every rule re-evaluated on the final values |
| FormRules.SolutionUnique | app/form_rules.py:116-133 | two assignments that both satisfy the rules are equal |
| FormRules.OrderIrrelevant | app/form_rules.py:116-133 | any two dependency orders give the same values and states |
| FormRules.SettleIdempotent | app/form_rules.py:116-133 | evaluating again on the output values changes nothing |
| FormRules.MaskedInputIrrelevant | app/form_rules.py:131-132 | submissions that differ only in fields that end hidden or read-only get the same result |
| FormTemplates.Capture | app/form_templates.py:11-41 | captures the items by name and position, and fails exactly when some dependent dropdown or relation cannot be named |
| FormTemplates.MapFields | app/form_templates.py:107-112 | succeeds exactly when every template field is mapped to a compatible field of the target table, and resolves each |
| FormTemplates.MapConfig | app/form_templates.py:98-166 | succeeds exactly when the mappings are complete, compatible and injective and every item can be mapped; each item is then the mapped one |
| FormTemplates.ChooseFilter | app/form_templates.py:147-163 | the dependent-dropdown match field is a candidate of the target table, and the picked one when one was picked |
| FormTemplates.RemapReferences | app/form_templates.py:124-131 | remapping a rule tree maps the set of fields it refers to |
| FormTemplates.RemapMatches | app/form_templates.py:124-131 | a remapped tree decides renamed values as the original decides the original values |
| FormTemplates.MappedConfigRenames | app/form_templates.py:138-146 | the rules of a mapped form are the captured rules under one injective renaming |
| FormTemplates.RenamingPreservesStates | app/form_templates.py:143-146 | under an injective type-preserving renaming every field gets the same state, whatever order either config has |
| FormTemplates.SolutionsCorrespond | app/form_rules.py:116-133 | solutions of a config and of its renaming correspond field by field |
| FormTemplates.RenamingPreservesCycles | app/form_rules.py:97-113 | a renamed config is cyclic exactly when the original is |
| FormTemplates.MappedTemplateMeansTheSame | app/form_templates.py:98-168 | mapped onto a compatible table a template keeps its meaning for all submitted values, and is cyclic exactly when the captured rules are |
| FormTemplates.FilterRoundTrip | app/form_templates.py:29-33 | the match field of a dropdown captured by name is found again |
| FormTemplates.CaptureRoundTrip | app/form_templates.py:11-41 | mapping a captured form back onto its own table reproduces its items exactly |
| TemplateMeaning.GoodMappingsIff | app/form_templates.py:79-122 | the mappings are acceptable exactly when every key is mapped once, to different fields of the type that have all its choices, and to different many-to-many relationships of the table |
| TemplateMeaning.MappableIff | app/form_templates.py:124-166 | an item can be mapped exactly when its keys and the fields its conditions read are mapped and a match field is found where it needs one |
| TemplateMeaning.PickIff | app/form_templates.py:150-163 | a match field is found exactly when the pick is a candidate or, without a pick, there is a candidate of the captured name or only one candidate |
| TemplateMeaning.MappedBecomes | app/form_templates.py:136-166 | an item becomes its mapped field, with the mapped parent and that match field, or its mapped relationship |
| TemplateDesign.NodeCarried | app/form_rules.py:27-58 | a condition tree is valid over the template's names exactly when its renaming is valid over the target's |
| TemplateDesign.CarriedAcceptedIff | app/form_design.py:56-110 | a design and its renaming are accepted alike, except that a hidden or locked field needs a column that can do without a value |
| TemplateDesign.MappedAcceptedIff | app/form_templates.py:167-168 | the closing validation accepts the mapped design exactly when the template is a valid design over its own names and every field hidden or locked by a rule is mapped to a nullable or defaulted column |
| TemplateDesign.MapAndValidate | app/form_templates.py:98-168 | the mapping with its closing validation: succeeds exactly when the template can be mapped, is a valid design over its own names, and hides or locks only fields mapped to nullable or defaulted columns; the result is the normal form of the mapped design |
| TemplateDesign.MappedIsStored | app/form_templates.py:133-168 | what is stored of an accepted mapping: each item member by member |
| FormDesign.CheckItems | app/form_design.py:68-94 | the item loop accepts exactly the items that fit given the fields used before them, and normalises each |
| FormDesign.CheckRules | app/form_design.py:96-109 | the rule loop accepts exactly the items whose rules fit the form |
| FormDesign.ValidateConfig | app/form_design.py:56-110 | accepts exactly the designs with fitting settings, items and acyclic rules, and returns the normal form |
| FormDesign.StoredIsAccepted | app/form_design.py:56-111 | what is stored of an accepted design is accepted again and is its own normal form |
| FormDesign.RulesReadTheForm | app/form_rules.py:27-59 | an accepted rule refers only to other fields of the same form |
| FormDesign.AcceptedNeverCycles | app/form_design.py:110-110 | an accepted design never meets the cycle error at run time, whichever part of it is shown |
| FormDesign.RequiredStaysReachable | app/form_design.py:106-107 | a database-required field without a default is never hidden or made read-only by an accepted rule |
| DesignMeaning.AcceptedIff | app/form_design.py:56-110 | a design is accepted exactly when the JSON spells a typed design that is valid, and it spells only one, the one that is stored |
| DesignMeaning.NodeFitsIff | app/form_rules.py:27-59 | a rule tree passes exactly when no node is more than five levels down, every group has 1 to 20 members, and every condition compares another column of the form by an operator and operand its type offers |
| FormDraft.Studio.GetDraft | app/form_design.py:114-121 | the first visit creates the draft from the live form, later visits change nothing |
| FormDraft.Studio.Act | app/designer/studio.py:151-200 | save, preview, publish, reset and restore: accepted exactly under the stated guards, with the whole new state; refused actions change nothing |
| FormDraft.VersionWinsOnce | app/form_design.py:124-129 | of two accepted actions the later quoted a larger version |
| FormDraft.SaveSurvives | app/designer/studio.py:151-200 | a saved config stays the draft until an accepted action that quoted a later version replaces it |
| FormDraft.TestComesFromPreview | app/designer/studio.py:151-200 | a standing test goes back to a successful preview of the very same draft |
| FormDraft.PublishedWasPreviewed | app/form_design.py:132-159 | what a publish puts live was validated, and previewed successfully and unchanged since; the preview saw that same live form exactly when the draft was not stale then |
| FormDraft.AfterPublish | app/form_design.py:143-159 | after a publish the draft is the live form, untested, and both revisions are kept |
| FormDraft.RepublishNeedsPreview | app/form_design.py:139-140 | two publishes have a successful preview between them |
| FormDraft.OnlyPublishGoesLive | app/form_design.py:132-159 | the live form changes only by an outside edit or an accepted publish |
| FormDraft.DraftOrigin | app/designer/studio.py:151-200 | whatever a draft holds goes back to the action that put it there: the live form for an opening or a reset, the named revision for a restore, the submission for a save, what went live for a publish |
| FormDraft.AcceptedIff | app/designer/studio.py:151-200 | what each action needs: the current version, and a config that validates, a shown preview, a tested and error-free draft of the live form, or a revision that exists |
| FormDraft.DesignGoesLive | app/designer/studio.py:151-200 | saved, previewed and published on consecutive versions of a draft of the live form, a design without errors passes every guard and goes live |
| FormDraft.StalePreviewCanPublish | app/form_design.py:132-140 | a preview made while the live schema differed can still allow the publish once the schema is changed back |
| SchemaIo.RemapIff | app/schema_io.py:205-213 | remapping a display list through a partial id map equals the full renaming exactly when the list is non-empty and the map knows all of it |
| SchemaIo.AssignedBijective | app/schema_io.py:337-349 | distinct old ids get consecutive new ids, one to one |
| SchemaIo.FieldOrderIs | app/schema_io.py:360-382 | after n relations exactly the scalar fields and the FK fields of those relations have been created |
| SchemaIo.AllFieldsMade | app/schema_io.py:360-382 | every field of a sound export is created exactly once |
| SchemaIo.RelationIff | app/schema_io.py:374-415 | a relation comes out as its renaming exactly when it carries no lost on_delete and its display fields exist by then |
| SchemaIo.JunctionNameIs | app/identifiers.py:74-80 | a junction is named after its two tables in text order, cut at 64 characters, whichever way round they are given |
| SchemaIo.RoundTripIff | app/schema_io.py:271-560 | importing an export is an isomorphism of models exactly when no mn relation has an on_delete and every display list is non-empty and names fields created by then |
| SchemaRounds.NothingDangles | app/schema_io.py:271-560 | an imported model has unique ids and no dangling reference, whatever was lost |
| SchemaRounds.LossHappensOnce | app/schema_io.py:205-213 | after one import no relation can lose anything more |
| SchemaRounds.SecondRoundExact | app/schema_io.py:128-183 | export, import, export, import: the second round is an isomorphism for every sound model |
| SchemaIo.OnDeleteIsLost | app/schema_io.py:394-410 | an edited file with an on_delete on an mn relation does not come back as it was |
| SchemaIo.LateDisplayIsLost | app/schema_io.py:374-415 | a model a store can hold, whose first relation displays the FK field of the second, does not come back as it was |
| SchemaImport.AddTables | app/schema_io.py:337-349 | the table pass: rows under consecutive ids without display field, and the id map |
| SchemaImport.AddScalars | app/schema_io.py:360-366 | the scalar field pass fails exactly on a missing table, and skips relation-typed fields |
| SchemaImport.AddRelation | app/schema_io.py:374-415 | one relation: its FK field and the map entry first, then the relation read through that map |
| SchemaImport.AddRelations | app/schema_io.py:374-415 | the relation pass fails exactly when a kept relation has an unresolved table, and computes the specified fields, relations and maps |
| SchemaImport.SetDisplays | app/schema_io.py:418-421 | the deferred display fields, remapped; where the file repeats an id, the last table with it gets the last display known |
| SchemaImport.AddForms | app/schema_io.py:424-436 | the form pass fails exactly on a missing table |
| SchemaImport.AddItems | app/schema_io.py:437-455 | the form item pass skips exactly the items whose form, field or relation was not created |
| SchemaImport.AddMenus | app/schema_io.py:482-493 | the menu pass: rows without parents, shifted positions, and the id map |
| SchemaImport.WireMenus | app/schema_io.py:494-496 | the parents are wired as in the file; where it repeats an id, the last menu with it gets the last parent known |
| SchemaImport.AddFlows | app/schema_io.py:507-517 | the workflow pass keeps exactly those whose table and field exist |
| SchemaImport.AddSteps | app/schema_io.py:552-560 | the approval step pass keeps exactly those whose workflow exists and whose states are given |
| SchemaImport.Build | app/schema_io.py:337-560 | all passes together compute the specified rows, and raise exactly when a lookup fails |
| SchemaImport.Store.Import | app/schema_io.py:279-307 | refused, rolled back or committed as the flags, the names taken and the lookups say; a failed replace leaves the wiped model; an admitted export commits; table and form names that are distinct stay so over an additive import |
| SchemaImport.RefusedIff | app/schema_io.py:257-307 | what is refused before anything is written, and why: a bad file; an additive import onto a model with a table name taken in the model or the database or a form name taken in the model; a plain one onto a model |
| SchemaImport.NamesStayDistinct | app/schema_io.py:257-268 | distinct names stay distinct over an admitted additive import |
| SchemaImport.SoundResolves | app/schema_io.py:337-436 | no lookup raises in the import of an export |
| SchemaIo.ResolvesIff | app/schema_io.py:361-403 | no lookup of an import raises exactly when every form and scalar field is on a table of the file and every relation that is created finds its two tables, its FK field's table and, if that one is managed, the table the field refers to |
| SchemaImport.ReplaceIsRoundTrip | app/schema_io.py:279-307 | a replace import of an export is admitted and commits, and gives the exported model up to renaming exactly when nothing is lost |
| SchemaImport.AdditiveAppends | app/schema_io.py:257-268 | an additive import keeps every existing row, adds the file up to renaming exactly when nothing is lost, and puts its menus last |
| Formula.WalkNodes | app/formula.py:256-274 | the worklist walk finds no fault exactly when no node of the tree has one, and collects the called names |
| Formula.Validate | app/formula.py:247-279 | accepts exactly the trees that pass both walks |
| FormulaMeaning.AcceptableIff | app/formula.py:237-279 | a formula is accepted exactly when everything in it is plain syntax, calls name known functions without keywords, lookups and rollups start with a quoted known name, and each name is a column or is called somewhere in it |
| Formula.NoFormulaError | app/formula.py:142-211 | a clean expression never makes the evaluator raise a FormulaError, for any row, clock and resolver |
| Formula.ValidatedNeverFails | app/formula.py:247-279 | an accepted formula never evaluates to a FormulaError |
| Formula.EvalReadsOnly | app/formula.py:142-211 | rows that agree on the names in expression positions give the same result |
| Formula.ReadsAreNames | app/formula.py:275-279 | every name the evaluator may look up is a name node of the tree |
| Formula.ValidatedReadsColumns | app/formula.py:275-279 | an accepted formula depends only on its columns and the called names it also uses as values, and on columns alone exactly when there are none of the latter |
| Formula.FunctionNameSlipsThrough | app/formula.py:275-279 | a called name used as a value is accepted although it is no column |
| Formula.TodayAccepted | app/formula.py:247-279 | a call of today with an argument is accepted |
| Formula.TodayRaises | app/formula.py:199-211 | and its evaluation raises |
| Formula.RaisesIff | app/formula.py:142-211 | an expression raises something other than a FormulaError exactly when some date shift, comparison, clock, lookup or rollup it asks for on the row has no answer |
| Formula.AcceptedHasValueIff | app/formula.py:142-211 | an accepted formula has a value on a row exactly when everything it asks for there is answered |
| FormulaMeaning.AndMeans | app/formula.py:163-170 | "and" gives its first false operand, else its last, so it is true exactly when all are |
| FormulaMeaning.OrMeans | app/formula.py:163-173 | "or" gives its first true operand, else its last, so it is true exactly when some is |
| FormulaMeaning.BoolOpFails | app/formula.py:164-164 | a connective fails as its first failing operand does, whichever decides |
| FormulaMeaning.CompareMeans | app/formula.py:174-189 | a comparison chain is true exactly when every link holds, and false exactly when links that hold lead to one that does not |
| FormulaMeaning.UnaryMeans | app/formula.py:149-160 | "not" is true exactly of nothing, false, zero and the empty text; a sign leaves nothing alone |
| FormulaMeaning.BinaryMeans | app/formula.py:84-101 | "&" joins texts, nothing included, and any other operator makes nothing of nothing |
| FormulaMeaning.ArithmeticMeans | app/formula.py:84-101 | of two values plus and minus shift dates, and everything else is arithmetic, left and right as written |
| FormulaMeaning.IfMeans | app/formula.py:190-192 | only the branch the test selects is evaluated |
| FormulaMeaning.CoalesceMeans | app/formula.py:103-107 | the first argument that is neither nothing nor the empty text, and nothing when none is |
| FormulaMeaning.LibraryMeans | app/formula.py:199-211 | a call of a built-in function is the function of the argument values in their order |
| FormulaMeaning.ResolverMeans | app/formula.py:204-207 | a lookup or rollup is the resolver's answer, and nothing without a resolver |
| Formula.QueriesAreWritten | app/formula.py:142-211 | every call that is asked for is written in the formula, with as many arguments |
| Formula.LoneLookupAccepted | app/formula.py:238-279 | a lookup with one argument is accepted |
| Formula.LoneLookupRaises | app/formula.py:324-324 | and raises on every row, whatever the resolver |
| Formula.AcceptedHasValue | app/formula.py:142-211 | an accepted formula in which no today or now has an argument, every lookup two and every rollup two or three, has a value on each row where the shifts, comparisons, lookups and rollups it makes there are answered |
| ForeignKeys.ClosureIff | app/metadata/schema_service.py:329-343 | a deletion takes exactly the rows that its own rows reach along cascading references, circles included |
| ForeignKeys.LooseGoAlone | app/metadata/schema_service.py:329-343 | rows that nothing cascades from and nothing forbids to delete go alone |
| ForeignKeys.OneLinkDoomed | app/record_service.py:309-310 | one reference and its target deleted: refused, both gone, or the target alone, as the action says |
| Rollups.RecomputedReadsBase | app/formula.py:324-358 | what formulas read in other rows are plain cells: recomputing a row comes to the same, or raises, whatever formula cells are stored |
| Rollups.RecomputedAgrees | app/formula.py:399-417 | recomputing a row keeps its plain cells, and recomputing it again would store the same |
| Rollups.RefreshWorks | app/formula.py:399-417 | evaluation in field order makes every formula cell equal its value from scratch, formulas that read earlier formula columns included |
| Rollups.AgreesIffFresh | app/formula.py:399-427 | a row that can be recomputed agrees exactly when each of its stored formula cells is the value of its formula from scratch |
| Rollups.RecomputedWorks | app/formula.py:420-427 | recomputing one row writes that row only, in formula cells only, and makes it agree |
| Rollups.RippleWorks | app/formula.py:439-474 | after a ripple the rows it visited before an evaluation raised agree, and no other row is written |
| Rollups.RippleAgreesIff | app/record_service.py:140-146 | after a ripple, cut short or not, every stored formula cell agrees exactly when each row that was not visited agreed before it |
| Rollups.MovedCountIsStale | app/formula.py:439-459 | when a reference moves away from a parent the row count over it is as before exactly if the row did not count before |
| RollupMeaning.MinMeans | app/data_service.py:273-293 | the minimum is a number exactly when it is among the selected cells and no selected number is smaller |
| RollupMeaning.MaxMeans | app/data_service.py:273-293 | the maximum is a number exactly when it is among the selected cells and no selected number is larger |
| RollupMeaning.CountMeans | app/data_service.py:285-286 | a count is how many selected cells are not NULL |
| RollupMeaning.SumMeans | app/data_service.py:273-293 | the sum of one number is that number, and of two lists the sum of their sums |
| RollupMeaning.AvgMeans | app/data_service.py:273-293 | the average times how many numbers there are is the sum |
| RollupMeaning.NothingIff | app/data_service.py:273-293 | every aggregate but the count is NULL exactly when no number is selected |
| RollupMeaning.OrderIrrelevant | app/data_service.py:273-293 | no aggregate depends on the order of the selected cells |
| RollupMeaning.RowOrderIrrelevant | app/data_service.py:290-293 | a rollup does not depend on the order of the rows |
| RollupMeaning.SelectedAre | app/data_service.py:290-292 | a rollup aggregates one cell for each row that points at the parent, in row order, and no other |
| RollupMeaning.RowCount | app/data_service.py:286-286 | a count without a column is the number of rows that point at the parent |
| RollupMeaning.LookupMeans | app/formula.py:324-338 | a lookup shows the column of the row the link refers to, and NULL when there is none |
| RecordWrites.UnexposedAgrees | app/formula.py:439-474 | a row that a write left alone, and whose formulas read nothing it changed, keeps agreeing |
| RecordWrites.WriteAgreesIff | app/record_service.py:161-358 | all stored formula cells are right after a create, update or removal and its ripple exactly when the write was harmless: each row it changed, or that reads what it changed, is visited before an evaluation raises or still holds the right values |
| RecordWrites.UpdateHarmlessIff | app/record_service.py:180-200 | an update, of plain cells or of references and whatever is aggregated, is harmless, as long as no row to visit raises, exactly when each former parent that the ripple does not visit still holds the right values |
| RecordWrites.KeptLinksAreHarmless | app/record_service.py:180-200 | an update that leaves the references as they are is harmless, as long as no row to visit raises |
| RecordWrites.FreshKeyIsHarmless | app/record_service.py:161-177 | so is a create under a key nobody refers to |
| RecordWrites.UnreferencedTrashIsHarmless | app/record_service.py:343-353 | so is a removal into the trash of a row nobody refers to, if its own formulas read no stamp |
| RecordWrites.UnreferencedDeleteIsHarmless | app/record_service.py:354-358 | a removal for good of a row nobody refers to goes through, and is harmless as long as no row to visit raises |
| RecordWrites.AfterBase | app/record_service.py:161-358 | what a write does to rows and plain cells, refusals and foreign key actions included, depends on them alone, and its ripple changes none of them |
| RecordMeaning.WrittenCellIff | app/record_service.py:161-200 | a create or update and its ripple store the given values in the plain cells of their own row and change no other plain cell |
| RecordMeaning.DeletedCellIff | app/record_service.py:337-358 | a removal for good is refused exactly when some row has to keep a reference to a row that would go; otherwise the row goes with all that cascade to it, references to them are emptied where the key says so, and no other plain cell changes |
| RecordMeaning.TrashedCellIff | app/record_service.py:337-358 | a removal into the trash of a row nothing has to refer to stamps it, empties every reference to it, and changes no other plain cell |
| RecordWrites.RunBase | app/record_service.py:161-358 | the plain content of a run of writes is that of the writes alone |
| RecordWrites.RunAgreesIff | app/record_service.py:161-358 | every stored formula cell is right all along a run of writes exactly when every write of it was harmless |
| RecordWrites.Store.Recompute | app/formula.py:420-427 | the formula cells of one row, or nothing at all when an evaluation raises |
| RollupMeaning.StoredIs | app/formula.py:420-474 | a cell the ripple got to holds what its formula reads in the database as the write left it |
| RollupMeaning.StoredExtreme | app/formula.py:420-474 | a stored minimum or maximum the ripple got to is the smallest or largest number among the children that now point at the row, and NULL exactly when none has a number |
| RecordWrites.Store.Ripple | app/formula.py:439-474 | the parents and then the children relation by relation, until an evaluation raises |
| RecordMeaning.VisitsIff | app/formula.py:439-474 | a ripple visits exactly the rows that the row refers to and those that refer to it, the former first |
| RecordWrites.Store.ReleaseRelations | app/record_service.py:347-351 | the references are cleared relation by relation, or their rows deleted where the column must hold something; it stops where the database refuses |
| RecordWrites.Store.Insert | app/record_service.py:161-177 | the whole database after a create and its ripple; the row is stored without formula cells when computing them raises |
| RecordWrites.Store.Change | app/record_service.py:180-200 | the whole database after an update and its ripple; the row keeps its formula cells when computing them raises |
| RecordWrites.Store.Delete | app/record_service.py:337-358 | the whole database after a removal and its ripple, with what the foreign keys do; refused deletions raise, into the trash half-way |
| RecordWrites.Store.Run | app/record_service.py:161-358 | any run of writes leaves the database that the writes one by one define |
| RecordWrites.FamilyAgrees | app/formula.py:324-358 | the example database is right before the writes below |
| RecordWrites.MoveLeavesStale | app/record_service.py:180-200 | moving a child from one parent to another leaves the count of the first stale |
| RecordWrites.TrashLeavesStale | app/record_service.py:343-353 | trashing a parent leaves the looked-up name in its child |
| RecordWrites.DeletedAda | app/record_service.py:309-310 | deleting a parent for good frees its child, takes it along, is refused, or leaves it dangling, as the foreign key says |
| RecordWrites.DeleteLeavesStale | app/metadata/schema_service.py:336-343 | with the default foreign key the freed child still shows the looked-up name |
| RecordWrites.RaiseCutsShort | app/record_service.py:140-146 | an update that keeps all references leaves a child stale when an earlier one raises |
| Merge.Database.RepointFk | app/data_service.py:130-138 | every cell of the column that names the duplicate names the survivor, nothing else changes, and the changed rows are counted |
| Merge.Database.SetLinks | app/data_service.py:448-467 | afterwards exactly the wanted links exist on that side, all others as before |
| Merge.Database.DeleteLinks | app/data_service.py:141-147 | the links of one record on one side are gone, all others as before |
| Merge.Database.MoveLinks | app/reconcile.py:71-79 | one junction side is renamed from the duplicate to the survivor |
| Merge.Database.RepointAll | app/reconcile.py:67-68 | all FK columns are renamed, self-relations included |
| Merge.Database.MoveAllLinks | app/reconcile.py:71-79 | all junctions are renamed, both directions of a self-relation included |
| Merge.Database.Remove | app/record_service.py:337-355 | into the trash, all links of the record are dropped and all references to it cleared, or the rows deleted where they must have one; for good, the record goes with what its foreign keys say of the referring rows; a refusal raises, into the trash half-way |
| Merge.Database.Merge | app/reconcile.py:57-88 | refused exactly for equal or missing records, and half-way when a foreign key forbids the deletion; otherwise the whole database is stated, and it is the quotient exactly when no stale self-reference is copied |
| Merge.LinkStep | app/reconcile.py:72-78 | union of the links, then deletion, equals renaming the side |
| Merge.FillsIdealIff | app/reconcile.py:30-33 | the fills agree with the quotient exactly when the duplicate has no self-reference that the survivor lacks |
| Merge.CleanBeforeRemovalIff | app/reconcile.py:81-85 | before the removal something names the duplicate exactly when such a self-reference was filled in |
| Merge.RemovedAlone | app/record_service.py:337-355 | removing a record nothing points at goes through and concerns that record only |
| Merge.MergeIsQuotientIff | app/reconcile.py:57-88 | the merged tables are the quotient exactly when no self-reference of the duplicate fills a blank of the survivor, whatever the foreign keys do |
| Merge.DanglesIff | app/record_service.py:337-355 | a merge leaves a reference to a record that is gone exactly when records are deleted for good, a stale reference is not enforced, and none cascades or forbids the deletion |
| Merge.StaleCell | app/metadata/schema_service.py:329-343 | deleted for good, a stale cell forbids the deletion and the merge stops half done, or takes the survivor along, or is emptied, or, unenforced, keeps the dead key |
| Merge.StaleCellTrashed | app/record_service.py:347-351 | into the trash the stale cell is emptied, or the survivor deleted |
| Merge.StaleSelfForGood | app/reconcile.py:81-85 | a database with each of these outcomes for a removal for good |
| Merge.StaleSelfIsLost | app/record_service.py:347-351 | with a trash the same merge loses the parent |
| Merge.NothingNamesTheDuplicate | app/reconcile.py:57-88 | after a merge no FK column and no junction names the duplicate |
| Merge.NothingElseChanges | app/reconcile.py:57-88 | no other row is lost, required references included, and each changes only by the identification |
| Merge.SurvivorCells | app/reconcile.py:30-33 | a non-blank survivor cell is kept, a blank one takes the duplicate's value |
| MergeMeaning.MergedCells | app/reconcile.py:57-88 | the survivor after a merge: its own cells with NULL and empty ones filled from the duplicate, references to the duplicate turned to itself |
| MergeMeaning.OtherCells | app/reconcile.py:67-69 | every other row stays, with its cells as they were and each reference to the duplicate turned to the survivor |
| MergeMeaning.DuplicateCells | app/reconcile.py:85-85 | the duplicate is gone or in the trash as it was under the stamp |
| MergeMeaning.MergedLinkIff | app/reconcile.py:71-80 | every link after a merge: the old ones with the duplicate replaced on the sides of the table |
| Topology.Walk.AddNode | app/topology.py:79-98 | lists the node exactly if it is new, visible and below the cap, and notes truncation |
| Topology.Walk.AddEdge | app/topology.py:100-108 | draws the edge unless an end is missing, it loops, or its key was drawn |
| Topology.Walk.Turn | app/topology.py:112-164 | one turn keeps every distance shortest and everything nearer expanded |
| Topology.GraphFor | app/topology.py:39-171 | terminates within the cap; labels are shortest distances over visible records, everything within depth is listed unless truncated, edges join listed records, are unique and never loop, and every link between listed records nearer than depth is drawn |
| Topology.WithinIsListed | app/topology.py:110-164 | when everything nearer than k is expanded, everything within k steps is listed |
| Topology.NewIsShortest | app/topology.py:132-136 | a record met first while expanding distance d is at distance d + 1 |
| Topology.ImpactMapExact | app/topology.py:110-164 | two untruncated maps of the same records agree on nodes, labels and edges, and list exactly what is within depth |
| Topology.EdgesMean | app/topology.py:100-164 | an edge leads from one record to another exactly when both are listed and different and an expanded one links them so, from the row that holds the key; none is drawn twice |
| Workflow.Match | app/workflow.py:41-46 | finds the first transition for a move, and one exactly when the move is an edge |
| Workflow.AllowedChoices | app/workflow.py:49-55 | the current state and exactly the states this user may move to, each once |
| Workflow.Check | app/workflow.py:67-87 | accepts exactly the writes whose every move is an edge open to the user |
| Workflow.AllowedIff | app/workflow.py:58-87 | a write is accepted exactly when each governed field in it stays, is blanked, or makes a move whose first complete entry names no roles, the user's role, or is made by a designer |
| Workflow.OfferedIsAcceptedIff | app/workflow.py:49-87 | every other state that would be accepted is offered; every offer is accepted when no move is listed twice |
| Workflow.OfferedCanBeRefused | app/workflow.py:49-87 | with a move listed twice an offered state can be refused |
| Approvals.OpenSteps | app/approvals.py:141-147 | the open steps are exactly the unapproved ones at the request's position |
| Approvals.RequestRow.constructor | app/approvals.py:118-135 | a new request waits at the lowest position |
| Approvals.RequestRow.Sign | app/approvals.py:155-199 | one decision: refused, signed, advanced, approved or rejected as specified, and applied exactly on approval |
| Approvals.ActKeepsSound | app/approvals.py:155-199 | a decision keeps: signatures by eligible users, one per step, positions below the current all signed, none beyond |
| Approvals.ActIff | app/approvals.py:69-168 | an attempt is accepted exactly when the request waits and the user, a designer, the named approver or in the named role, can sign an unsigned step at its position; it signs the first such step |
| Approvals.ActMeans | app/approvals.py:155-199 | one rejection rejects; an approval leaves the request approved exactly when no step lacks an approval, and else waiting at the first position where one does |
| Approvals.OutstandingDropsByOne | app/approvals.py:155-199 | an approval signs exactly one outstanding step, a rejection none |
| Approvals.ApprovedMeansAllSigned | app/approvals.py:155-199 | an approved request has exactly one approval per step, by eligible users, in position order |
| Approvals.DecidedIsFinal | app/approvals.py:155-170 | approved and rejected are final |
| Approvals.AppliedOnceOrNever | app/approvals.py:190-211 | the transition is applied once if the request ends approved, and never otherwise |
| SignOff.StepsFor | app/approvals.py:51-60 | the steps of a transition are exactly those stored for it |
| SignOff.PlanDiversions | app/approvals.py:93-115 | returns the held moves and removes exactly their fields from the write |
| SignOff.DiversionSplits | app/approvals.py:93-115 | held and direct part together are the write, are disjoint, and nothing left needs approval |
| SignOff.RecordDesk.Update | app/api/routes.py:304-315 | an ordinary write: accepted or refused with the whole new record and request list |
| SignOff.NothingIsLost | app/approvals.py:93-135 | an accepted write stores each cell or, where the move needs approval, keeps the state and leaves a request for just this move waiting; earlier requests stay, new ones are fresh ones for held moves, no move gets a second waiting one |
| SignOff.HeldFieldsIff | app/approvals.py:93-115 | a cell is held exactly when it moves to a new state along an edge of its workflow that some step has to approve |
| SignOff.RequestsStay | app/approvals.py:118-199 | in every run no request is lost, none changes once decided, and no two waiting ones are for the same move |
| SignOff.RecordDesk.Sign | app/approvals.py:155-211 | a decision on a request, with the record it leaves |
| SignOff.SigningMeans | app/approvals.py:155-214 | a signature decides a waiting request the user can sign; the record changes exactly when no step lacks an approval any more, and only by the move requested |
| SignOff.WriteIsLawful | app/workflow.py:67-87 | an accepted write moves a status only along an edge that needs no approval |
| SignOff.TimelyIsLawful | app/approvals.py:202-211 | applying an approved request to a record still where it was filed is a lawful step |
| SignOff.ApplicationLawfulIff | app/approvals.py:202-211 | applying an approved request is lawful exactly when, before the call, the record is still where it was filed, already at the target, at the start of an edge there without approval steps, or at the start of one that another request has had approved |
| SignOff.HistoryLawfulIff | app/approvals.py:155-211 | in every run of writes and sign-offs the status history is a path of the graph, approval-required edges only by fully signed requests, exactly when each request met that condition as it was applied |
| SignOff.HistoryIsLawful | app/approvals.py:155-211 | so it is in every run that applies requests to unmoved records |
| SignOff.StaleApplicationLeavesTheGraph | app/approvals.py:202-211 | without that condition a run leaves the graph |
| Sla.ClockRow.Start | app/sla.py:103-109 | a started clock runs to now plus the target |
| Sla.ClockRow.Pause | app/sla.py:112-117 | pausing a running clock keeps its whole seconds left |
| Sla.ClockRow.Resume | app/sla.py:120-125 | resuming sets the deadline from the seconds left |
| Sla.ClockRow.Stop | app/sla.py:128-134 | stopping meets or breaches by the deadline |
| Sla.ClockRow.Handle | app/sla.py:177-215 | one record event on an existing clock, as classified |
| Sla.Begin | app/sla.py:177-215 | the same on a record without a clock: none, or a new one as specified |
| SlaVerdict.WantedMeans | app/sla.py:80-90 | a status asks for a stop before a pause and for a pause before running; without start states every other status runs |
| SlaVerdict.BeginsIff | app/sla.py:177-215 | a record gets a clock exactly when its status asks for running or pausing, on a create only if the policy says so; it is due one target later, or paused with the whole target left |
| Sla.ApplyKeepsConsistent | app/sla.py:177-215 | running means a deadline and no remainder, paused the reverse, breached means breached at the deadline; met, breached and stopped are absorbing |
| Sla.OverduePauseForgives | app/sla.py:112-125 | a pause while overdue turns a breach into a met clock |
| SlaVerdict.LedgerIsPunctual | app/sla.py:103-134 | what is left of a clock is what the target leaves of the running time, or less by less than a second per pause, over any status events and sweeps |
| SlaVerdict.DeadlineBound | app/sla.py:103-134 | after k pauses, none while overdue, the deadline is at most start plus target plus paused time and less than k seconds earlier, and exact for k = 0, over any status events and sweeps |
| SlaVerdict.VerdictFollowsRunningTime | app/sla.py:128-134 | in every life of status events and sweeps that reached a stop, running or paused, running time over the target ends breached, running time under the target minus k seconds ends met |
| SlaSweep.RunBreachSweep | app/sla.py:306-368 | every clock goes through marking and escalation on its own, and the count is the number of actions |
| SlaSweep.LifeIsOrderly | app/sla.py:306-368 | over any life under a fixed policy the breach action is committed at most once, levels commit in order and once each, none before its delay |
| SlaSweep.FiringsAre | app/sla.py:318-338 | the breach action fires once if committed and once more for each overdue pass that failed, so at most once exactly when these add up to at most one |
| SlaSweep.FailedPassFiresAgain | app/sla.py:326-338 | a failed pass followed by a fine one fires the breach action twice |
| SlaSweep.OnePass | app/sla.py:306-368 | nothing fires in a maintenance window, at most one level fires in a pass, and a failed level is not consumed |
| SlaSweep.OverdueIsMarked | app/sla.py:318-330 | an overdue running clock is marked breached at its deadline, others are left alone |
| Pull.PeerRecords | app/pull.py:154-183 | the paged fetch returns exactly the rows the paging reaches before the first one not after the watermark, oldest first |
| Pull.AfterIff | app/pull.py:56-79 | a cursor is new exactly when there is no watermark or it is later than it: as a date, as a text, or as a number where it is one, texts after numbers |
| Pull.DefaultPagesReachAll | app/pull.py:156-180 | without a page size, or with zero, pages have 100 rows and the paging reaches the end |
| Pull.FetchIsFullScanIff | app/pull.py:154-183 | on a list sorted newest first the fetch equals a full scan for rows after the watermark exactly when the paging gets past them all |
| Pull.SmallPagesReachAll | app/pull.py:156-180 | with a page size of at most 200 and every request answered the paging reaches the end |
| Pull.LargePagesReach | app/api/routes.py:101-101 | with a larger page size it gets 200 rows for each of the pages the total asks for |
| Pull.Source.Run | app/pull.py:325-352 | the run imports oldest first, counts the imports and stores the advanced watermark |
| Pull.WatermarkIsMax | app/pull.py:82-83 | the watermark never goes back and ends at the maximum imported cursor |
| Pull.OfferedAgainIff | app/pull.py:325-347 | a record is offered again exactly when no record with its cursor or a later one was imported |
| Pull.SecondRunFetchesNothing | app/pull.py:325-347 | once the newest record is imported a second run on the same list fetches nothing |
| Pull.UnreachedIsLost | app/pull.py:177-179 | records beyond the paging are neither fetched nor offered again |
| Pull.PageOf250Loses | app/pull.py:154-183 | a page size of 250 over a peer with 250 new rows loses 50 of them |
| Companies.SubtreeIds | app/companies.py:18-31 | exactly the company and all companies below it by child links, on cyclic data too |
| Companies.AllowedForUser | app/companies.py:34-39 | unscoped without a company, otherwise exactly the companies at or below the user's |
| Companies.SeesDownwards | app/companies.py:1-8 | a company sees all that a company below it sees |
| Companies.SeparateBranches | app/companies.py:1-8 | two companies neither of which is below the other see nothing in common |
| Companies.Registry.Add | app/designer/routes.py:301-316 | adds the company unless the name is empty or taken |
| Companies.Registry.Edit | app/designer/routes.py:328-348 | renames and re-parents unless the name is taken or the parent is the company itself or below it |
| Companies.Registry.Delete | app/designer/routes.py:351-365 | deletes only a company without children and users |
| Companies.EditAcyclicIff | app/designer/routes.py:342-345 | writing a company keeps the tree acyclic exactly when its parent is not the company itself or below it |
| Companies.AddKeepsTree | app/designer/routes.py:313-313 | a company added under an existing parent keeps the forest |
| Companies.DeleteKeepsTree | app/designer/routes.py:357-363 | deleting a childless company keeps the forest |
| Companies.StepTreeIff | app/designer/routes.py:301-365 | a request leaves a forest exactly when it is refused, changes nothing, or names an existing parent |
| Companies.StepAcyclicIff | app/designer/routes.py:301-365 | a request closes a cycle exactly when it adds a company whose new id was named as a parent before, at or below the parent it is given |
| Companies.RunTreeIff | app/designer/routes.py:301-365 | the companies are a forest all along a run exactly when no accepted request names a missing parent |
| Companies.MissingParentCanCycle | app/designer/routes.py:305-313 | naming a missing parent can later close a cycle |
| Companies.StepMeans | app/designer/routes.py:301-365 | what each request lets through: adding and editing under a name no other company has, no edit below itself, deleting only what has neither children nor users |
| Companies.RunKeepsNames | app/designer/routes.py:301-365 | along every run names stay distinct and non-empty and no company that users belong to goes |
| Companies.Lister.Walk | app/designer/routes.py:284-290 | shows every child not shown yet, each followed by its subtree, siblings in rank order and one deeper than their parent |
| Companies.Lister.Tree | app/designer/routes.py:276-298 | lists every company exactly once, each under its parent or at the root; in a forest everything is nested and siblings are in rank order |
| RateLimit.RetryAfter | app/rate_limit.py:37-40 | the least number of whole seconds, one at least, after which the oldest hit is at the edge of the window; one when there is no hit |
| RateLimit.AdmittedIff | app/rate_limit.py:28-58 | a call is admitted exactly when there is no limit or fewer hits than that stand in the window that ends now, its first instant included |
| RateLimit.Limiter.HitOk | app/rate_limit.py:43-58 | admits and stores the call, or refuses it with the time to wait, changing no other key |
| RateLimit.Limiter.Sweep | app/scheduler.py:231-234 | drops exactly the hits older than an hour |
| RateLimit.RunKeepsInvariant | app/rate_limit.py:28-58 | after every run in clock order the stored hits are the last admitted calls, only hour-old ones are missing, and any limit + 1 of them span more than the window |
| RateLimit.LimitHolds | app/rate_limit.py:28-58 | with a window of at most an hour no closed interval of that length holds more than limit admitted calls |
| RateLimit.BoundHoldsIff | app/scheduler.py:231-234 | that bound holds over all runs exactly when the window is at most 3600 seconds |
| RateLimit.FreedIff | app/rate_limit.py:28-40 | a refused caller is admitted later exactly when the oldest hit has left the window |
| RateLimit.WaitingIsEnough | app/rate_limit.py:37-58 | waiting strictly longer than the returned time, with no other call on the key, is enough |
| RateLimit.ExactWaitCanFail | app/rate_limit.py:31-40 | waiting exactly that long can be refused |

## Left out

- FormRules.States: `bind` (app/form_rules.py:136-212), which turns states into form controls, is user interface.
- FormDesign.ValidateConfig: the health check of the finished design, whose findings the source returns beside the design, and settings of unhashable types, which raise a different error, are not modelled.
- FormDraft.Studio.Act: validation is a fixed function of the schema and the config, so a change of an mn relation between a preview and a publish, which no hash covers, is not modelled; the role preview itself is given as its outcome.
- FormTemplates.MapConfig: the built-in starter layouts and the choice lists shown to the designer are left out; template version and mapping types are assumed to be as checked on entry.
- SchemaIo.RoundTripIff: data sources, dashboards, permissions, triggers, SLA policies, roles, uniques, connections, feeds, webhooks, pull sources and sequences repeat the same remapping and are left out, as are physical tables and columns and the parsing of the JSON text.
- Formula.Validate: parsing is not part of this model; arithmetic, dates, comparison and the safe functions are arbitrary functions of their arguments, with any exception other than FormulaError seen as one outcome.
- RecordWrites.Store.Run: rollups over mn relations are left out; a formula reads other rows one level deep, and no column of its own row that is computed after it.
- RollupMeaning.MinMeans: only numbers are aggregated; what a database makes of texts or dates under a minimum or maximum is left out.
- RecordMeaning.TrashedCellIff: where some row must keep its reference to the trashed one, that row is deleted; this case is stated by RecordWrites.Store.Delete alone.
- DesignMeaning.AcceptedIff: the columns of a table are assumed to have different names, as the metadata tables enforce.
- ForeignKeys.Doomed: where a row to go is referred to by a key that restricts, the deletion is taken as refused even if the referring row is to go as well, which some databases decide by the order they work in; limits on the depth of cascades are left out.
- Merge.Database.Merge: the formula and audit columns a fill writes are not modelled.
- Merge.Database.Remove: the junction rows of records of other tables that are deleted by a cascade are left out.
- Topology.GraphFor: the visible neighbours of a record are given as a list, already cut at the cap by the query; labels and URLs are left out.
- Workflow.Check: at most one workflow per field is assumed where the writes are planned and checked.
- SignOff.PlanDiversions: the same assumption of one workflow per field.
- Approvals.RequestRow.Sign: the step list is fixed while a request is open, as are notifications and the comment.
- Sla.Begin: business calendars, warnings, the write-back columns and notifications are left out; a policy is fixed.
- SlaSweep.RunBreachSweep: the two loops are run over the same clocks; clocks that an event changes between the two queries are not modelled.
- Pull.PeerRecords: REST sources, authentication, templating and record filters are left out; numbers are finite, and rows with equal cursors keep their order from page to page.
- Companies.Lister.Tree: where the data is not a forest, the order among companies no root leads to is not stated; lower-casing of names is given as a ranking.
- Companies.Registry.Edit: trimming and cutting of the name and reading of the parent number are done before the call.
- RateLimit.Limiter.HitOk: calls are serialised and share one limit and window per run; `blocked` and `record`, which count failures only, are left out; seconds are exact.
- Templates, WTForms, JavaScript, the SQL console, reports, dashboards, settings, OpenAPI, e-mail, webhooks, files, sign-in and encryption are not part of this model.
