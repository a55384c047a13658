/** The price-draft screen: editing, checking, and when Activate may show
    (apps/web/lib/price-workflow.ts, price-period-view.ts, price-rows.ts). */
module PriceWorkflow {
  import opened Sequences
  import opened JsText
  import opened NumberText
  import opened PriceFingerprint

  type Rows = seq<PricePeriodPrice>

  datatype Status = DRAFT | ACTIVE | ARCHIVED

  datatype PricePeriod = PricePeriod(status: Status, source: Option<string>, validMonth: Option<string>)

  datatype Purpose = Official | TestOnly

  datatype Kind = OfficialKind | TestOnlyKind | DraftKind | ArchivedKind | ExpiredKind

  /** The server's answer to a check: a verdict, a token, and the rows it has stored. */
  datatype Validation = Validation(valid: bool, fingerprint: string, rows: Rows)

  datatype CheckSnapshot = CheckSnapshot(
    localFingerprint: string,
    serverFingerprint: string,
    rows: Rows,
    validation: Validation)

  datatype CheckOutcome = CheckOutcome(validation: Validation, stale: bool)

  datatype IssueCode = EMPTY | MISSING_WHOLESALE | TEST_ONLY_TOO_MANY

  datatype Issue = Issue(code: IssueCode, skus: seq<string>)

  datatype Mode = Edit | Review | ReadOnly

  datatype Action = Action(visible: bool, enabled: bool)

  datatype ReadOnlyState = ReadOnlyState(kind: Kind, canArchive: bool, canStartNewDraft: bool)

  datatype WorkflowState = WorkflowState(
    mode: Mode,
    step: int,
    purpose: Purpose,
    rowsEditable: bool,
    issues: seq<Issue>,
    check: Option<CheckOutcome>,
    reviewRows: Rows,
    persistRequired: bool,
    saveForLater: Action,
    checkAndContinue: Action,
    backToEdit: Action,
    activate: Action,
    readOnly: Option<ReadOnlyState>)

  const TEST_ONLY_SOURCE := "test_only"
  const TEST_ONLY_MAX_ROWS := 2
  const HIDDEN := Action(false, false)
  const SHOWN := Action(true, true)

  // ----------------------------------------------------------------------------------------
  // Reading the screen off the data
  // ----------------------------------------------------------------------------------------

  predicate PositivePrice(x: Number) {
    x.Finite? && !x.negative
  }

  predicate LacksWholesale(row: PricePeriodPrice) {
    !PositivePrice(row.wholesale)
  }

  function Skus(rows: Rows): (skus: seq<string>)
    ensures |skus| == |rows|
    ensures forall i :: 0 <= i < |rows| ==> skus[i] == rows[i].sku
  {
    seq(|rows|, i requires 0 <= i < |rows| => rows[i].sku)
  }

  function SkusMissingWholesale(rows: Rows): seq<string> {
    Skus(Filter(LacksWholesale, rows))
  }

  function TooMany(purpose: Purpose, rows: Rows): seq<Issue> {
    if purpose == TestOnly && |rows| > TEST_ONLY_MAX_ROWS
    then [Issue(TEST_ONLY_TOO_MANY, Skus(rows[TEST_ONLY_MAX_ROWS..]))] else []
  }

  function Missing(rows: Rows): seq<Issue> {
    var missing := SkusMissingWholesale(rows);
    if |missing| > 0 then [Issue(MISSING_WHOLESALE, missing)] else []
  }

  function DraftBlockingIssues(purpose: Purpose, rows: Rows): seq<Issue> {
    if |rows| == 0 then [Issue(EMPTY, [])] else TooMany(purpose, rows) + Missing(rows)
  }

  /** Nothing blocks a draft exactly when it has rows, all of them with a positive wholesale price,
      and no more than two if it is a trial list. */
  lemma NothingBlocks(purpose: Purpose, rows: Rows)
    ensures DraftBlockingIssues(purpose, rows) == []
       <==> && rows != []
            && (purpose == TestOnly ==> |rows| <= 2)
            && forall row :: row in rows ==> row.wholesale.Finite? && !row.wholesale.negative
  {
    var missing := Filter(LacksWholesale, rows);
    if missing == [] {
      forall row | row in rows ensures PositivePrice(row.wholesale) {
        assert LacksWholesale(row) ==> row in missing;
      }
    } else {
      assert missing[0] in rows && LacksWholesale(missing[0]);
    }
  }

  /** What blocks a draft, issue by issue, and which SKUs it names. */
  lemma BlockingIssuesNameTheRows(purpose: Purpose, rows: Rows, issue: Issue)
    requires issue in DraftBlockingIssues(purpose, rows)
    ensures match issue.code
      case EMPTY => rows == [] && issue.skus == []
      case TEST_ONLY_TOO_MANY =>
        purpose == TestOnly && |rows| > 2 && |issue.skus| == |rows| - 2
        && forall i :: 2 <= i < |rows| ==> issue.skus[i - 2] == rows[i].sku
      case MISSING_WHOLESALE =>
        issue.skus != [] && forall sku :: sku in issue.skus <==>
          exists row :: row in rows && row.sku == sku && !(row.wholesale.Finite? && !row.wholesale.negative)
  {
    if issue.code == MISSING_WHOLESALE {
      var missing := Filter(LacksWholesale, rows);
      assert issue.skus == Skus(missing);
      forall sku ensures sku in issue.skus <==> exists row :: row in missing && row.sku == sku {
        if sku in issue.skus {
          var k :| 0 <= k < |missing| && Skus(missing)[k] == sku;
          assert missing[k] in missing;
        }
        if row :| row in missing && row.sku == sku {
          var k :| 0 <= k < |missing| && missing[k] == row;
          assert Skus(missing)[k] == sku;
        }
      }
    }
  }

  /** The same list, pushed together as the source does. */
  method CollectBlockingIssues(purpose: Purpose, rows: Rows) returns (issues: seq<Issue>)
    ensures issues == DraftBlockingIssues(purpose, rows)
    ensures issues == [] ==> rows != [] && forall row :: row in rows ==> row.wholesale.Finite? && !row.wholesale.negative
  {
    NothingBlocks(purpose, rows);
    if |rows| == 0 { return [Issue(EMPTY, [])]; }
    issues := [];
    if purpose == TestOnly && |rows| > TEST_ONLY_MAX_ROWS {
      issues := issues + [Issue(TEST_ONLY_TOO_MANY, Skus(rows[TEST_ONLY_MAX_ROWS..]))];
    }
    var missing := SkusMissingWholesale(rows);
    if |missing| > 0 {
      issues := issues + [Issue(MISSING_WHOLESALE, missing)];
    }
  }

  function Outcome(check: Option<CheckSnapshot>, rows: Rows): Option<CheckOutcome> {
    match check
    case None => None
    case Some(c) => Some(CheckOutcome(c.validation, c.localFingerprint != FingerprintRows(rows)))
  }

  function PurposeOf(period: Option<PricePeriod>): Purpose {
    if period.Some? && period.value.source == Some(TEST_ONLY_SOURCE) then TestOnly else Official
  }

  function Classify(period: PricePeriod, currentMonth: string): Kind {
    if period.status == ARCHIVED then ArchivedKind
    else if period.status == DRAFT then DraftKind
    else if currentMonth != "" && period.validMonth != Some(currentMonth) then ExpiredKind
    else if period.source == Some(TEST_ONLY_SOURCE) then TestOnlyKind else OfficialKind
  }

  function ReadOnlyOf(period: PricePeriod, currentMonth: string, canConfigure: bool): ReadOnlyState {
    var kind := Classify(period, currentMonth);
    ReadOnlyState(kind,
                  kind != DraftKind && kind != ArchivedKind && canConfigure,
                  kind != DraftKind && canConfigure)
  }

  function Resolve(
    period: Option<PricePeriod>, currentMonth: string, canConfigure: bool, rows: Rows, check: Option<CheckSnapshot>)
    : WorkflowState
  {
    var purpose := PurposeOf(period);
    if period.None? || period.value.status != DRAFT || !canConfigure then
      WorkflowState(ReadOnly, 1, purpose, false, [], None, rows, false, HIDDEN, HIDDEN, HIDDEN, HIDDEN,
        match period case None => None case Some(p) => Some(ReadOnlyOf(p, currentMonth, canConfigure)))
    else
      var outcome := Outcome(check, rows);
      var issues := DraftBlockingIssues(purpose, rows);
      var reviewing :=
        outcome.Some? && !outcome.value.stale && outcome.value.validation.valid && check.value.serverFingerprint != "";
      if reviewing then
        WorkflowState(Review, 3, purpose, false, [], outcome, check.value.rows, false,
          HIDDEN, HIDDEN, SHOWN, SHOWN, None)
      else
        WorkflowState(Edit, if issues == [] then 2 else 1, purpose, true, issues, outcome, rows, |rows| > 0,
          SHOWN, Action(true, issues == []), HIDDEN, HIDDEN, None)
  }

  /** The modes: read-only without a draft the user may configure, otherwise review or edit. Activate and
      Back show exactly in review, with the checked rows; editing, saving and checking exactly in edit,
      where checking is possible exactly when nothing blocks. */
  lemma OneModeAtATime(
    period: Option<PricePeriod>, currentMonth: string, canConfigure: bool, rows: Rows, check: Option<CheckSnapshot>)
    ensures var w := Resolve(period, currentMonth, canConfigure, rows, check);
      && (w.mode == ReadOnly <==> period.None? || period.value.status != DRAFT || !canConfigure)
      && w.activate == w.backToEdit == (if w.mode == Review then Action(true, true) else Action(false, false))
      && w.saveForLater == (if w.mode == Edit then Action(true, true) else Action(false, false))
      && w.checkAndContinue.visible == w.rowsEditable == (w.mode == Edit)
      && (w.checkAndContinue.enabled <==> w.mode == Edit && DraftBlockingIssues(w.purpose, rows) == [])
      && w.purpose == (if period.Some? && period.value.source == Some("test_only") then TestOnly else Official)
      && w.issues == (if w.mode == Edit then DraftBlockingIssues(w.purpose, rows) else [])
      && w.step == (if w.mode == Review then 3 else if w.mode == Edit && w.issues == [] then 2 else 1)
      && w.persistRequired == (w.mode == Edit && rows != [])
      && w.reviewRows == (if w.mode == Review && check.Some? then check.value.rows else rows)
      && (w.check.Some? <==> w.mode != ReadOnly && check.Some?)
  {
  }

  /** What a period that cannot be edited is called, and what can be done with it: archiving what is
      active, and starting a new draft from anything but a draft; both only for who may configure. */
  lemma ReadOnlyActions(
    period: Option<PricePeriod>, currentMonth: string, canConfigure: bool, rows: Rows, check: Option<CheckSnapshot>)
    ensures var w := Resolve(period, currentMonth, canConfigure, rows, check);
      && (w.readOnly.Some? <==> w.mode == ReadOnly && period.Some?)
      && (w.readOnly.Some? ==>
            var p, r := period.value, w.readOnly.value;
            && (r.canArchive <==> canConfigure && p.status == ACTIVE)
            && (r.canStartNewDraft <==> canConfigure && p.status != DRAFT)
            && (r.kind == ArchivedKind <==> p.status == ARCHIVED) && (r.kind == DraftKind <==> p.status == DRAFT)
            && (r.kind == ExpiredKind <==> p.status == ACTIVE && currentMonth != "" && p.validMonth != Some(currentMonth))
            && (r.kind == TestOnlyKind <==>
                  p.status == ACTIVE && r.kind != ExpiredKind && p.source == Some("test_only")))
  {
  }

  // ----------------------------------------------------------------------------------------
  // Edit steps
  // ----------------------------------------------------------------------------------------

  function OtherSku(sku: string): PricePeriodPrice -> bool {
    (row: PricePeriodPrice) => row.sku != sku
  }

  /** A row as it is added: no price yet. */
  function FreeRow(sku: string): PricePeriodPrice {
    PricePeriodPrice(None, sku, Zero, Cell.Missing, Cell.Missing, Cell.Missing)
  }

  function AddRow(rows: Rows, sku: string): Rows {
    var trimmed := Trim(sku);
    if trimmed == "" then rows
    else if trimmed in Skus(rows) then rows
    else rows + [FreeRow(trimmed)]
  }

  function RemoveRow(rows: Rows, sku: string): Rows {
    Filter(OtherSku(sku), rows)
  }

  datatype Column = Wholesale | MinRetail | Retail | ListPrice

  function WithCell(row: PricePeriodPrice, column: Column, value: Option<Number>): PricePeriodPrice {
    var cell := match value case None => Null case Some(x) => Price(x);
    match column
    case Wholesale => row.(wholesale := match value case None => Zero case Some(x) => x)
    case MinRetail => row.(minRetailPrice := cell)
    case Retail => row.(retailPrice := cell)
    case ListPrice => row.(listPrice := cell)
  }

  /** `value` is what `toPriceValue` makes of the typed text. An index outside the list changes
      nothing. */
  function UpdatePriceCell(rows: Rows, index: int, column: Column, value: Option<Number>): Rows {
    if 0 <= index < |rows| then rows[index := WithCell(rows[index], column, value)] else rows
  }

  /** Typing into a cell changes that cell and nothing else: an empty cell means no price, or zero for the
      wholesale price, which is never missing. */
  lemma OneCellChanges(rows: Rows, index: nat, column: Column, value: Option<Number>)
    requires index < |rows|
    ensures var after := UpdatePriceCell(rows, index, column, value);
      && |after| == |rows| && (forall i :: 0 <= i < |rows| && i != index ==> after[i] == rows[i])
      && var was, row := rows[index], after[index];
         && row.id == was.id && row.sku == was.sku
         && row.wholesale == (if column != Wholesale then was.wholesale else if value.Some? then value.value else Zero)
         && row.minRetailPrice == (if column != MinRetail then was.minRetailPrice else TypedCell(value))
         && row.retailPrice == (if column != Retail then was.retailPrice else TypedCell(value))
         && row.listPrice == (if column != ListPrice then was.listPrice else TypedCell(value))
  {
  }

  function TypedCell(value: Option<Number>): Cell {
    if value.Some? then Price(value.value) else Null
  }

  lemma NoCellChanges(rows: Rows, index: int, column: Column, value: Option<Number>)
    requires !(0 <= index < |rows|)
    ensures UpdatePriceCell(rows, index, column, value) == rows
  {
  }

  /** Adding a SKU that is there, or nothing, changes nothing; a new one joins at the end, trimmed and
      without any price. */
  lemma AddedRow(rows: Rows, sku: string)
    ensures AddRow(rows, sku)
         == if Trim(sku) == "" || exists row :: row in rows && row.sku == Trim(sku) then rows
            else rows + [PricePeriodPrice(None, Trim(sku), Zero, Cell.Missing, Cell.Missing, Cell.Missing)]
  {
    SkusAreListed(rows, Trim(sku));
  }

  lemma SkusAreListed(rows: Rows, sku: string)
    ensures sku in Skus(rows) <==> exists row :: row in rows && row.sku == sku
  {
    if sku in Skus(rows) {
      var k :| 0 <= k < |rows| && Skus(rows)[k] == sku;
      assert rows[k] in rows;
    }
    if row :| row in rows && row.sku == sku {
      var k :| 0 <= k < |rows| && rows[k] == row;
      assert Skus(rows)[k] == sku;
    }
  }

  /** Removing a SKU keeps exactly the rows with another one. */
  lemma RemovedRow(rows: Rows, sku: string)
    ensures forall row :: row in RemoveRow(rows, sku) <==> row in rows && row.sku != sku
    ensures (forall row :: row in rows ==> row.sku != sku) ==> RemoveRow(rows, sku) == rows
  {
    if forall row :: row in rows ==> row.sku != sku { FilterAll(OtherSku(sku), rows); }
  }

  predicate UniqueSkus(rows: Rows) {
    forall i, j :: 0 <= i < j < |rows| ==> rows[i].sku != rows[j].sku
  }

  lemma RemoveKeepsUniqueSkus(rows: Rows, sku: string)
    requires UniqueSkus(rows)
    ensures UniqueSkus(RemoveRow(rows, sku))
  {
    FilterKeepsDistinct((row: PricePeriodPrice) => row.sku, OtherSku(sku), rows);
  }

  /** Adding a SKU and taking it out again restores the draft, exactly when no row had that SKU. */
  lemma AddThenRemove(rows: Rows, sku: string)
    ensures RemoveRow(AddRow(rows, sku), Trim(sku)) == rows <==> Trim(sku) !in Skus(rows)
  {
    var trimmed := Trim(sku);
    var others := OtherSku(trimmed);
    if trimmed in Skus(rows) {
      var i :| 0 <= i < |rows| && Skus(rows)[i] == trimmed;
      assert AddRow(rows, sku) == rows;
      assert rows[i] in rows && !others(rows[i]);
      assert rows[i] !in RemoveRow(rows, trimmed);
    } else {
      forall row | row in rows ensures others(row) {
        var i :| 0 <= i < |rows| && rows[i] == row;
        assert Skus(rows)[i] == row.sku;
      }
      FilterAll(others, rows);
      if trimmed != "" {
        var added := FreeRow(trimmed);
        FilterAppend(others, rows, [added]);
      }
    }
  }

  // ----------------------------------------------------------------------------------------
  // Runs of the screen
  // ----------------------------------------------------------------------------------------

  datatype Screen = Screen(period: Option<PricePeriod>, canConfigure: bool, rows: Rows, check: Option<CheckSnapshot>)

  datatype Step =
    | Select(period: Option<PricePeriod>, prices: Rows)
    | Add(sku: string)
    | Remove(sku: string)
    | Update(index: int, column: Column, value: Option<Number>)
    | Import(imported: Rows)
    | Check(validation: Validation)
    /** Going back to edit, a check that failed on the way, and an activation, sent or refused. */
    | DropCheck

  function After(s: Screen, step: Step): Screen {
    match step
    case Select(period, prices) => s.(period := period, rows := prices, check := None)
    case Add(sku) => s.(rows := AddRow(s.rows, sku))
    case Remove(sku) => s.(rows := RemoveRow(s.rows, sku))
    case Update(index, column, value) => s.(rows := UpdatePriceCell(s.rows, index, column, value))
    case Import(imported) => s.(rows := imported)
    case Check(validation) =>
      s.(rows := validation.rows,
         check := Some(SnapshotOf(validation)))
    case DropCheck => s.(check := None)
  }

  function Final(s: Screen, steps: seq<Step>): Screen {
    if steps == [] then s else After(Final(s, steps[..|steps| - 1]), steps[|steps| - 1])
  }

  function Start(canConfigure: bool): Screen {
    Screen(None, canConfigure, [], None)
  }

  /** The check a run leaves standing: the last one, unless it was dropped or another period chosen. */
  function StandingCheck(steps: seq<Step>): Option<Validation> {
    if steps == [] then None
    else
      match steps[|steps| - 1]
      case Check(validation) => Some(validation)
      case DropCheck => None
      case Select(_, _) => None
      case _ => StandingCheck(steps[..|steps| - 1])
  }

  function SnapshotOf(validation: Validation): CheckSnapshot {
    CheckSnapshot(FingerprintRows(validation.rows), validation.fingerprint, validation.rows, validation)
  }

  lemma CheckAfter(s: Screen, step: Step)
    ensures After(s, step).canConfigure == s.canConfigure
    ensures After(s, step).check ==
      match step
      case Check(validation) => Some(SnapshotOf(validation))
      case DropCheck => None
      case Select(_, _) => None
      case _ => s.check
  {
  }

  lemma {:induction false} CheckStands(canConfigure: bool, steps: seq<Step>)
    ensures Final(Start(canConfigure), steps).canConfigure == canConfigure
    ensures Final(Start(canConfigure), steps).check
         == match StandingCheck(steps) case None => None case Some(v) => Some(SnapshotOf(v))
  {
    if steps != [] {
      CheckStands(canConfigure, steps[..|steps| - 1]);
      CheckAfter(Final(Start(canConfigure), steps[..|steps| - 1]), steps[|steps| - 1]);
    }
  }

  predicate ActivateShows(s: Screen, currentMonth: string) {
    Resolve(s.period, currentMonth, s.canConfigure, s.rows, s.check).activate.visible
  }

  lemma ActivateShowsWhen(s: Screen, currentMonth: string)
    ensures ActivateShows(s, currentMonth) <==>
      && s.period.Some? && s.period.value.status == DRAFT && s.canConfigure
      && s.check.Some? && s.check.value.validation.valid && s.check.value.serverFingerprint != ""
      && s.check.value.localFingerprint == FingerprintRows(s.rows)
  {
  }

  /** After any run, Activate shows exactly when the period is a draft the user may configure, a
      valid check carrying a server token stands, and the rows on screen rearrange the rows that
      check was about. No edit in between needs to remember to take the check back. */
  lemma ActivateShowsOnlyWhatWasChecked(canConfigure: bool, currentMonth: string, steps: seq<Step>)
    requires StandingCheck(steps).Some? ==>
      Separable(StandingCheck(steps).value.rows, Final(Start(canConfigure), steps).rows)
    ensures var s, checked := Final(Start(canConfigure), steps), StandingCheck(steps);
      ActivateShows(s, currentMonth) <==>
        && s.period.Some? && s.period.value.status == DRAFT && canConfigure
        && checked.Some? && checked.value.valid && checked.value.fingerprint != ""
        && multiset(KeysOf(s.rows)) == multiset(KeysOf(checked.value.rows))
  {
    CheckStands(canConfigure, steps);
    ActivateShowsWhen(Final(Start(canConfigure), steps), currentMonth);
    if StandingCheck(steps).Some? {
      SameFingerprintSameRows(StandingCheck(steps).value.rows, Final(Start(canConfigure), steps).rows);
    }
  }

  /** What Activate presents is what was checked: in review the rows shown are the stored rows the
      server answered about; and where SKUs swallow no rows, they hold exactly what the rows on screen
      hold. */
  lemma ReviewShowsTheCheckedRows(canConfigure: bool, currentMonth: string, steps: seq<Step>)
    requires ActivateShows(Final(Start(canConfigure), steps), currentMonth)
    ensures var s := Final(Start(canConfigure), steps);
      var w := Resolve(s.period, currentMonth, s.canConfigure, s.rows, s.check);
      && StandingCheck(steps).Some? && w.reviewRows == StandingCheck(steps).value.rows
      && (Separable(w.reviewRows, s.rows) ==> multiset(KeysOf(w.reviewRows)) == multiset(KeysOf(s.rows)))
  {
    var s := Final(Start(canConfigure), steps);
    CheckStands(canConfigure, steps);
    ActivateShowsWhen(s, currentMonth);
    var checked := StandingCheck(steps).value.rows;
    if Separable(checked, s.rows) { SameFingerprintSameRows(checked, s.rows); }
  }

  /** While Activate shows, an edit keeps it exactly when it only rearranges the rows. */
  lemma OnlyRearrangingKeepsActivate(s: Screen, currentMonth: string, edited: Screen)
    requires ActivateShows(s, currentMonth) && Separable(s.rows, edited.rows)
    requires edited.period == s.period && edited.canConfigure == s.canConfigure && edited.check == s.check
    ensures ActivateShows(edited, currentMonth) <==> multiset(KeysOf(edited.rows)) == multiset(KeysOf(s.rows))
  {
    ActivateShowsWhen(s, currentMonth);
    ActivateShowsWhen(edited, currentMonth);
    SameFingerprintSameRows(s.rows, edited.rows);
  }

  /** The price a column shows; null and missing show none. */
  function ShownIn(row: PricePeriodPrice, column: Column): Option<Number> {
    match column
    case Wholesale => Some(row.wholesale)
    case MinRetail => if row.minRetailPrice.Price? then Some(row.minRetailPrice.number) else None
    case Retail => if row.retailPrice.Price? then Some(row.retailPrice.number) else None
    case ListPrice => if row.listPrice.Price? then Some(row.listPrice.number) else None
  }

  lemma SameKeyWhenShown(row: PricePeriodPrice, column: Column, value: Option<Number>)
    ensures KeyOf(WithCell(row, column, value)) == KeyOf(row)
       <==> ShownIn(row, column) == if column == Wholesale && value.None? then Some(Zero) else value
  {
  }

  /** Typing over a price takes Activate away exactly when the column named now shows something else
      than before, whatever the SKUs. */
  lemma EditingACellHidesActivate(s: Screen, currentMonth: string, index: nat, column: Column, value: Option<Number>)
    requires ActivateShows(s, currentMonth) && index < |s.rows|
    ensures ActivateShows(After(s, Update(index, column, value)), currentMonth)
       <==> ShownIn(s.rows[index], column) == if column == Wholesale && value.None? then Some(Zero) else value
  {
    ActivateShowsWhen(s, currentMonth);
    ActivateShowsWhen(After(s, Update(index, column, value)), currentMonth);
    EditedPricesShow(s.rows, index, WithCell(s.rows[index], column, value));
    SameKeyWhenShown(s.rows[index], column, value);
  }

  /** A valid check of a draft, with a token, shows Activate at once, with the rows checked. */
  lemma ValidCheckShowsActivate(s: Screen, currentMonth: string, validation: Validation)
    requires s.period.Some? && s.period.value.status == DRAFT && s.canConfigure
    ensures var t := After(s, Check(validation));
      && t.rows == validation.rows && t.period == s.period
      && (ActivateShows(t, currentMonth) <==> validation.valid && validation.fingerprint != "")
  {
    ActivateShowsWhen(After(s, Check(validation)), currentMonth);
  }

  /** Going back, a failed check and another period take it away. */
  lemma DroppedCheckHidesActivate(s: Screen, currentMonth: string, period: Option<PricePeriod>, prices: Rows)
    ensures !ActivateShows(After(s, DropCheck), currentMonth)
    ensures !ActivateShows(After(s, Select(period, prices)), currentMonth)
    ensures After(s, DropCheck).rows == s.rows && After(s, Select(period, prices)).rows == prices
  {
  }

  /** Adding a new SKU takes Activate away, whatever the SKUs. */
  lemma AddingHidesActivate(s: Screen, currentMonth: string, sku: string)
    requires ActivateShows(s, currentMonth)
    requires Trim(sku) != "" && Trim(sku) !in Skus(s.rows)
    ensures !ActivateShows(After(s, Add(sku)), currentMonth)
  {
    ActivateShowsWhen(s, currentMonth);
    ActivateShowsWhen(After(s, Add(sku)), currentMonth);
    OneMoreRowShows(s.rows, FreeRow(Trim(sku)));
  }

  /** Taking the new SKU out again brings the very same screen back, review and all; so it is exactly
      when the SKU was new. */
  lemma RemovingRestoresTheScreen(s: Screen, sku: string)
    ensures After(After(s, Add(sku)), Remove(Trim(sku))) == s <==> Trim(sku) !in Skus(s.rows)
  {
    AddThenRemove(s.rows, sku);
    var t := After(After(s, Add(sku)), Remove(Trim(sku)));
    assert t.rows == RemoveRow(AddRow(s.rows, sku), Trim(sku));
  }

  predicate StepUnique(step: Step) {
    match step
    case Select(_, prices) => UniqueSkus(prices)
    case Import(imported) => UniqueSkus(imported)
    case Check(validation) => UniqueSkus(validation.rows)
    case _ => true
  }

  lemma StepKeepsUniqueSkus(s: Screen, step: Step)
    requires UniqueSkus(s.rows) && StepUnique(step)
    ensures UniqueSkus(After(s, step).rows)
  {
    if step.Remove? {
      RemoveKeepsUniqueSkus(s.rows, step.sku);
    } else if step.Add? && Trim(step.sku) !in Skus(s.rows) {
      forall i | 0 <= i < |s.rows| ensures s.rows[i].sku != Trim(step.sku) {
        assert Skus(s.rows)[i] == s.rows[i].sku;
      }
    }
  }

  /** No edit ever puts two rows with one SKU on screen. */
  lemma {:induction false} SkusStayUnique(canConfigure: bool, steps: seq<Step>)
    requires forall i :: 0 <= i < |steps| ==> StepUnique(steps[i])
    ensures UniqueSkus(Final(Start(canConfigure), steps).rows)
  {
    if steps != [] {
      var before, last := steps[..|steps| - 1], steps[|steps| - 1];
      SkusStayUnique(canConfigure, before);
      StepKeepsUniqueSkus(Final(Start(canConfigure), before), last);
    }
  }

  // ----------------------------------------------------------------------------------------
  // Bars in SKUs
  // ----------------------------------------------------------------------------------------

  lemma KeyTextPrefix(key: PriceKey, prefix: string)
    ensures KeyText(key.(sku := prefix + key.sku)) == prefix + KeyText(key)
  {
  }

  lemma FingerprintOfOne(row: PricePeriodPrice)
    ensures FingerprintRows([row]) == RowText(row)
  {
    assert RowTexts([row]) == [RowText(row)];
    assert SortBy(TextLeq, [RowText(row)]) == [RowText(row)];
  }

  lemma FingerprintOfTwo(first: PricePeriodPrice, second: PricePeriodPrice)
    requires TextLeq(RowText(first), RowText(second))
    ensures FingerprintRows([first, second]) == RowText(first) + ['|'] + RowText(second)
  {
    var texts := [RowText(first), RowText(second)];
    assert RowTexts([second]) == [RowText(second)];
    assert RowTexts([first, second]) == texts by { assert [first, second][1..] == [second]; }
    assert texts[1..] == [RowText(second)];
    assert SortBy(TextLeq, texts[1..]) == texts[1..];
    assert SortBy(TextLeq, texts) == texts;
    assert Join('|', texts[1..]) == RowText(second);
  }

  /** Why a SKU must not start with a row text and a bar: any two rows, listed in text order, have the fingerprint of one row
      whose SKU swallows the first. */
  lemma BarsCollide(first: PricePeriodPrice, second: PricePeriodPrice)
    requires TextLeq(RowText(first), RowText(second))
    ensures var swallowed := second.(sku := RowText(first) + ['|'] + second.sku);
      && FingerprintRows([swallowed]) == FingerprintRows([first, second])
      && multiset(KeysOf([swallowed])) != multiset(KeysOf([first, second]))
  {
    var swallowed := second.(sku := RowText(first) + ['|'] + second.sku);
    FingerprintOfOne(swallowed);
    FingerprintOfTwo(first, second);
    KeyTextPrefix(KeyOf(second), RowText(first) + ['|']);
    assert |multiset(KeysOf([swallowed]))| == 1 && |multiset(KeysOf([first, second]))| == 2;
  }

  predicate Over(alphabet: set<char>, text: string) {
    forall i :: 0 <= i < |text| ==> text[i] in alphabet
  }

  predicate SkusOver(alphabet: set<char>, rows: Rows) {
    forall row :: row in rows ==> Over(alphabet, row.sku)
  }

  ghost predicate Faithful(alphabet: set<char>) {
    forall a, b :: SkusOver(alphabet, a) && SkusOver(alphabet, b) ==>
      (FingerprintRows(a) == FingerprintRows(b) <==> multiset(KeysOf(a)) == multiset(KeysOf(b)))
  }

  /** The alphabet suffices to write some number: it has a digit, or the letters of a word. */
  predicate SpellsANumber(alphabet: set<char>) {
    || (exists c :: c in alphabet && IsDigit(c))
    || {'N', 'a'} <= alphabet
    || {'I', 'n', 'f', 'i', 't', 'y'} <= alphabet
  }

  lemma NumbersSpelled(alphabet: set<char>, x: Number)
    requires Over(alphabet, Print(x))
    ensures SpellsANumber(alphabet)
  {
    var text := Print(x);
    match x {
      case NotANumber => assert text[0] == 'N' && text[1] == 'a';
      case Infinite(negative) =>
        var at := if negative then 1 else 0;
        assert text[at] == 'I' && text[at + 1] == 'n' && text[at + 2] == 'f' && text[at + 3] == 'i';
        assert text[at + 6] == 't' && text[at + 7] == 'y';
      case Zero => assert text[0] == '0' && IsDigit('0');
      case Finite(negative, digits, n) =>
        FiniteText(x);
        assert IsDigit(text[if negative then 1 else 0]);
    }
  }

  lemma {:induction false} SpelledNumber(alphabet: set<char>) returns (x: Number)
    requires SpellsANumber(alphabet)
    ensures Over(alphabet, Print(x))
  {
    if c :| c in alphabet && IsDigit(c) {
      if c == '0' {
        x := Zero;
      } else {
        x := Finite(false, [c], 1);
        assert Print(x) == [c];
      }
    } else if {'N', 'a'} <= alphabet {
      x := NotANumber;
      assert Over(alphabet, "NaN");
    } else {
      x := Infinite(false);
      assert Over(alphabet, "Infinity");
    }
  }

  lemma OverConcat(alphabet: set<char>, a: string, b: string)
    ensures Over(alphabet, a + b) <==> Over(alphabet, a) && Over(alphabet, b)
  {
    assert forall i :: 0 <= i < |a| ==> (a + b)[i] == a[i];
    assert forall i :: 0 <= i < |b| ==> (a + b)[|a| + i] == b[i];
  }

  /** A SKU that swallows a row text spells a number, a colon and a bar. */
  lemma SwallowingNeeds(alphabet: set<char>, sku: string, key: PriceKey)
    requires Over(alphabet, sku) && Swallows(sku, key)
    ensures '|' in alphabet && ':' in alphabet && SpellsANumber(alphabet)
  {
    var text := KeyText(key);
    assert sku == text + ['|'] + sku[|text| + 1..];
    OverConcat(alphabet, text + ['|'], sku[|text| + 1..]);
    OverConcat(alphabet, text, ['|']);
    assert ['|'][0] in alphabet;
    RowTextNeeds(alphabet, key);
  }

  lemma RowTextNeeds(alphabet: set<char>, key: PriceKey)
    requires Over(alphabet, KeyText(key))
    ensures ':' in alphabet && SpellsANumber(alphabet)
  {
    var number, text := Print(key.wholesale), KeyText(key);
    var k := |key.sku|;
    assert text[k] == ':' && text[k + 1..k + 1 + |number|] == number;
    forall i | 0 <= i < |number| ensures number[i] in alphabet {
      assert number[i] == text[k + 1 + i];
    }
    NumbersSpelled(alphabet, key.wholesale);
  }

  lemma UnswallowedOver(alphabet: set<char>, a: Rows, b: Rows)
    requires SkusOver(alphabet, b) && !('|' in alphabet && ':' in alphabet && SpellsANumber(alphabet))
    ensures Unswallowed(a, b)
  {
    forall i, j | 0 <= i < |a| && 0 <= j < |b| ensures !Swallows(b[j].sku, KeyOf(a[i])) {
      assert b[j] in b;
      if Swallows(b[j].sku, KeyOf(a[i])) { SwallowingNeeds(alphabet, b[j].sku, KeyOf(a[i])); }
    }
  }

  /** A row without a SKU, and one that swallows it. */
  lemma SwallowedOver(alphabet: set<char>, row: PricePeriodPrice, swallowed: PricePeriodPrice)
    requires '|' in alphabet && ':' in alphabet && Over(alphabet, Print(row.wholesale))
    requires row == FreeRow("").(wholesale := row.wholesale)
    requires swallowed == row.(sku := RowText(row) + ['|'] + row.sku)
    ensures SkusOver(alphabet, [row, row]) && SkusOver(alphabet, [swallowed])
  {
    assert RowText(row) == [':'] + Print(row.wholesale) + ":::";
    OverConcat(alphabet, [':'], Print(row.wholesale));
    OverConcat(alphabet, [':'] + Print(row.wholesale), ":::");
    OverConcat(alphabet, RowText(row), ['|']);
    assert swallowed.sku == RowText(row) + ['|'];
  }

  /** For every alphabet of SKU characters: fingerprints tell all drafts apart exactly when SKUs cannot
      hold a bar, a colon and a number, that is, a whole row text and a bar. */
  lemma FaithfulExactly(alphabet: set<char>)
    ensures Faithful(alphabet) <==> !('|' in alphabet && ':' in alphabet && SpellsANumber(alphabet))
  {
    if '|' in alphabet && ':' in alphabet && SpellsANumber(alphabet) {
      var x := SpelledNumber(alphabet);
      var row := FreeRow("").(wholesale := x);
      var swallowed := row.(sku := RowText(row) + ['|'] + row.sku);
      SwallowedOver(alphabet, row, swallowed);
      TextLeqTotal(RowText(row), RowText(row));
      BarsCollide(row, row);
    } else {
      forall a, b | SkusOver(alphabet, a) && SkusOver(alphabet, b)
        ensures FingerprintRows(a) == FingerprintRows(b) <==> multiset(KeysOf(a)) == multiset(KeysOf(b))
      {
        UnswallowedOver(alphabet, a, b);
        UnswallowedOver(alphabet, b, a);
        SameFingerprintSameRows(a, b);
      }
    }
  }

  /** Edits change the rows, in their own way, and nothing else on the screen. */
  lemma EditsChangeTheRows(s: Screen, sku: string, index: int, column: Column, value: Option<Number>, imported: Rows)
    ensures After(s, Add(sku)) == s.(rows := AddRow(s.rows, sku))
    ensures After(s, Remove(sku)) == s.(rows := RemoveRow(s.rows, sku))
    ensures After(s, Update(index, column, value)) == s.(rows := UpdatePriceCell(s.rows, index, column, value))
    ensures After(s, Import(imported)) == s.(rows := imported)
  {
  }
}
