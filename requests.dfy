/**
 * The restock requests: the per-item manual quantities typed on the screen, the
 * one-row quick restock, the bulk submission, and the transfer transactions both
 * hand to the transaction sink.
 */
module Requests {
  import opened Wrappers
  import opened Filtering
  import opened Numbers
  import opened Inventory
  import opened Requirement
  import opened Catalog
  import opened Report
  import opened Text

  /** A transaction record as handed to `onAddTransaction`. */
  datatype Transaction = Transaction(
    id: string,
    itemId: string,
    itemName: string,
    kind: string,
    quantity: int,
    workShift: string,
    itemCondition: string,
    fromLocation: string,
    toLocation: string,
    notes: string,
    date: string,
    performedBy: string)

  /** The random id and the ISO timestamp of one transaction, supplied from outside. */
  datatype Stamp = Stamp(id: string, date: string)

  const NoteOpening: string := "Permintaan Restock (Safety x2). Periode: "
  const NoteFormula: string := ". Dihitung dari Pemakaian x "
  const NoteClosing: string := " hari x 2."

  /** The note of a restock transfer: the period code and the formula with its day count. */
  function RestockNote(p: Period): string {
    NoteOpening + p.Code() + NoteFormula + IntToString(Days(p)) + NoteClosing
  }

  const ShiftKind: string := "SHIFT"

  /** The record `processTransaction` builds: a transfer from the central warehouse. */
  function ShiftTransaction(item: Item, amount: int, wh: Warehouse, p: Period, user: string, stamp: Stamp): (t: Transaction)
    ensures t.itemId == item.id && t.itemName == item.name && t.quantity == amount
    ensures t.kind == ShiftKind && t.fromLocation == MainWarehouse && t.toLocation == wh.Name()
    ensures t.id == stamp.id && t.date == stamp.date && t.performedBy == user
  {
    Transaction(stamp.id, item.id, item.name, ShiftKind, amount, "ADMIN", "GOOD",
                MainWarehouse, wh.Name(), RestockNote(p), stamp.date, user)
  }

  /** `parseInt(manualQuantities[id] || "0")`: an absent or empty entry reads as "0". */
  function ManualValue(manual: map<string, string>, id: string): (v: Option<int>)
    ensures id !in manual || manual[id] == "" ==> v == Some(0)
  {
    ParseIntZeroAndEmpty();
    ParseInt(if id in manual && manual[id] != "" then manual[id] else "0")
  }

  /** The entry for `id` asks for a positive quantity. */
  predicate HasRequest(manual: map<string, string>, id: string) {
    var v := ManualValue(manual, id);
    v.Some? && v.value > 0
  }

  /** An entry that asks for something is present, non-empty, and read the same without the fallback. */
  lemma RequestIsEntered(manual: map<string, string>, id: string)
    requires HasRequest(manual, id)
    ensures id in manual && manual[id] != "" && ParseInt(manual[id]) == ManualValue(manual, id)
  {
    ParseIntZeroAndEmpty();
  }

  /**
   * `finalAmount` of `handleQuickRestock`: the manual quantity when it is positive,
   * otherwise the suggested order. It is never negative, and it is 0 exactly when
   * nothing was asked for and the stock already reaches the target.
   */
  function FinalAmount(manual: map<string, string>, item: Item, p: Period): (amount: int)
    ensures amount >= 0
    ensures amount == 0 <==> !HasRequest(manual, item.id) && item.expectedQty >= Target(item, p)
    ensures HasRequest(manual, item.id) ==> Some(amount) == ManualValue(manual, item.id)
    ensures !HasRequest(manual, item.id) ==> amount == Gap(Target(item, p), item.expectedQty)
  {
    var manualVal := ManualValue(manual, item.id);
    var target := Target(item, p);
    var suggested := Gap(target, item.expectedQty);
    if manualVal.Some? && manualVal.value > 0 then manualVal.value else suggested
  }

  /** Any positive quantity typed for the row takes precedence over the computed gap. */
  lemma ManualOverrideWins(manual: map<string, string>, item: Item, p: Period, n: int)
    requires n > 0 && item.id in manual && manual[item.id] == IntToString(n)
    ensures FinalAmount(manual, item, p) == n
  {
    ParseIntRoundTrip(n);
  }

  /**
   * The quick-restock button is enabled when an entry was typed or there is a gap;
   * a click on a disabled button would emit nothing.
   */
  predicate QuickRestockEnabled(manual: map<string, string>, item: Item, p: Period) {
    (item.id in manual && manual[item.id] != "") || Gap(Target(item, p), item.expectedQty) > 0
  }

  lemma DisabledButtonIsNoop(manual: map<string, string>, item: Item, p: Period)
    requires !QuickRestockEnabled(manual, item, p)
    ensures FinalAmount(manual, item, p) == 0
  {
    ParseIntZeroAndEmpty();
  }

  /** The manual quantity an entry asks for, 0 for `NaN`. */
  function ManualAmount(manual: map<string, string>, id: string): int {
    match ManualValue(manual, id)
    case Some(v) => v
    case None => 0
  }

  /** `itemsToProcess`: the rows whose entry asks for a positive quantity, in order. */
  function Selected(rows: seq<Item>, manual: map<string, string>): (r: seq<Item>)
    ensures IsSubsequence(r, rows)
    ensures forall x :: x in r <==> x in rows && HasRequest(manual, x.id)
    ensures forall x :: multiset(r)[x] == if HasRequest(manual, x.id) then multiset(rows)[x] else 0
  {
    Filter(rows, (it: Item) => HasRequest(manual, it.id))
  }

  /** The transactions of a bulk submission: one per selected row, with its own quantity. */
  function BulkTransactions(selected: seq<Item>, manual: map<string, string>, wh: Warehouse, p: Period,
                            user: string, stamps: nat -> Stamp): (r: seq<Transaction>)
    ensures |r| == |selected|
  {
    if selected == [] then []
    else
      var last := selected[|selected| - 1];
      BulkTransactions(selected[..|selected| - 1], manual, wh, p, user, stamps)
      + [ShiftTransaction(last, ManualAmount(manual, last.id), wh, p, user, stamps(|selected| - 1))]
  }

  /** The `j`-th transaction of a bulk submission is the transfer for the `j`-th selected row. */
  lemma {:induction false} BulkTransactionAt(selected: seq<Item>, manual: map<string, string>,
                                             wh: Warehouse, p: Period, user: string, stamps: nat -> Stamp, j: nat)
    requires j < |selected|
    ensures |BulkTransactions(selected, manual, wh, p, user, stamps)| == |selected|
    ensures BulkTransactions(selected, manual, wh, p, user, stamps)[j]
      == ShiftTransaction(selected[j], ManualAmount(manual, selected[j].id), wh, p, user, stamps(j))
  {
    var prefix := selected[..|selected| - 1];
    if j < |prefix| {
      BulkTransactionAt(prefix, manual, wh, p, user, stamps, j);
    } else if |prefix| > 0 {
      BulkTransactionAt(prefix, manual, wh, p, user, stamps, 0);
    }
  }

  /** Submitting one more row appends exactly its transfer. */
  lemma BulkTransactionsStep(selected: seq<Item>, manual: map<string, string>, wh: Warehouse, p: Period,
                             user: string, stamps: nat -> Stamp, i: nat)
    requires i < |selected|
    ensures BulkTransactions(selected[..i + 1], manual, wh, p, user, stamps)
      == BulkTransactions(selected[..i], manual, wh, p, user, stamps)
         + [ShiftTransaction(selected[i], ManualAmount(manual, selected[i].id), wh, p, user, stamps(i))]
  {
    assert selected[..i + 1][..i] == selected[..i];
  }

  /**
   * Every transaction of a bulk submission moves a positive quantity, the one typed
   * for its row, from the central warehouse to the selected one, in row order.
   */
  lemma BulkTransactionsAreRequests(selected: seq<Item>, manual: map<string, string>,
                                    wh: Warehouse, p: Period, user: string, stamps: nat -> Stamp, j: nat)
    requires forall x :: x in selected ==> HasRequest(manual, x.id)
    requires j < |selected|
    ensures var t := BulkTransactions(selected, manual, wh, p, user, stamps)[j];
      && Some(t.quantity) == ManualValue(manual, selected[j].id)
      && t.quantity > 0
      && t.itemId == selected[j].id && t.kind == ShiftKind
      && t.fromLocation == MainWarehouse && t.toLocation == wh.Name()
  {
    BulkTransactionAt(selected, manual, wh, p, user, stamps, j);
    assert selected[j] in selected;
  }

  const NothingToSubmit: string := "Masukkan jumlah kebutuhan pada setidaknya satu barang."

  const SubmittedClosing: string := " item berhasil diajukan ke Gudang Utama."

  function SubmittedNotice(n: nat): string {
    IntToString(n) + SubmittedClosing
  }

  /** The state of the restock screen and the transactions it has handed on so far. */
  class RestockPlanner {
    const items: seq<Item>
    const userName: string
    var selectedWarehouse: Warehouse
    var selectedPeriod: Period
    var searchTerm: string
    var manualQuantities: map<string, string>
    /** Every transaction given to `onAddTransaction`, oldest first. */
    var sent: seq<Transaction>

    constructor (items: seq<Item>, userName: string)
      ensures this.items == items && this.userName == userName
      ensures selectedWarehouse == Singles && selectedPeriod == OneWeek && searchTerm == ""
      ensures manualQuantities == map[] && sent == []
    {
      this.items := items;
      this.userName := userName;
      selectedWarehouse := Singles;
      selectedPeriod := OneWeek;
      searchTerm := "";
      manualQuantities := map[];
      sent := [];
    }

    /** The rows on screen. */
    function FilteredCatalog(): (rows: seq<Item>)
      reads this
      ensures searchTerm == "" ==> rows == MasterCatalogOf(items, selectedWarehouse)
      ensures forall x :: x in rows ==> x.location == selectedWarehouse.Name()
    {
      SearchCatalog(MasterCatalogOf(items, selectedWarehouse), searchTerm)
    }

    /** `handleExportPdf`: the report over the rows on screen, for the selected warehouse and period. */
    function ExportPdf(): (r: PdfReport)
      reads this
      ensures |r.data| == |FilteredCatalog()|
      ensures forall j :: 0 <= j < |r.data| ==> r.data[j] == ExportRow(FilteredCatalog()[j], selectedPeriod)
      ensures r.headers == Headers && r.title == Title && r.userName == userName
      ensures forall i :: 0 <= i < |r.fileName| ==> !IsWhitespace(r.fileName[i])
    {
      ExportReport(FilteredCatalog(), selectedWarehouse, selectedPeriod, userName)
    }

    method SelectWarehouse(wh: Warehouse)
      modifies this`selectedWarehouse
      ensures selectedWarehouse == wh
    {
      selectedWarehouse := wh;
    }

    method SelectPeriod(p: Period)
      modifies this`selectedPeriod
      ensures selectedPeriod == p
    {
      selectedPeriod := p;
    }

    method SetSearchTerm(term: string)
      modifies this`searchTerm
      ensures searchTerm == term
    {
      searchTerm := term;
    }

    /** `handleManualQtyChange`: the entry for `itemId` becomes `val`, the others stay. */
    method SetManualQuantity(itemId: string, val: string)
      modifies this`manualQuantities
      ensures manualQuantities == old(manualQuantities)[itemId := val]
    {
      manualQuantities := manualQuantities[itemId := val];
    }

    /** `processTransaction`: one transfer record goes to the sink. */
    method ProcessTransaction(item: Item, amount: int, stamp: Stamp)
      modifies this`sent
      ensures sent == old(sent) + [ShiftTransaction(item, amount, selectedWarehouse, selectedPeriod, userName, stamp)]
    {
      var tr := ShiftTransaction(item, amount, selectedWarehouse, selectedPeriod, userName, stamp);
      sent := sent + [tr];
    }

    /**
     * `handleQuickRestock`: when the final amount is positive, exactly one transfer of
     * that amount is emitted and only this item's entry is dropped; otherwise nothing
     * happens.
     */
    method QuickRestock(item: Item, stamp: Stamp)
      modifies this`manualQuantities, this`sent
      ensures var amount := FinalAmount(old(manualQuantities), item, selectedPeriod);
        if amount <= 0 then
          sent == old(sent) && manualQuantities == old(manualQuantities)
        else
          && sent == old(sent) + [ShiftTransaction(item, amount, selectedWarehouse, selectedPeriod, userName, stamp)]
          && manualQuantities == old(manualQuantities) - {item.id}
      ensures |sent| == |old(sent)| + 1 ==>
        var t := sent[|sent| - 1];
        && t.quantity > 0 && t.kind == ShiftKind && t.itemId == item.id
        && t.fromLocation == MainWarehouse && t.toLocation == selectedWarehouse.Name()
      ensures forall id :: id != item.id ==>
        (id in manualQuantities <==> id in old(manualQuantities))
        && (id in manualQuantities ==> manualQuantities[id] == old(manualQuantities)[id])
    {
      var finalAmount := FinalAmount(manualQuantities, item, selectedPeriod);
      if finalAmount <= 0 {
        return;
      }
      ProcessTransaction(item, finalAmount, stamp);
      manualQuantities := manualQuantities - {item.id};
    }

    /** The loop of `handleBulkSubmit`: one transfer per selected row, in order, each with its typed quantity. */
    method SubmitEach(selected: seq<Item>, stamps: nat -> Stamp)
      requires forall x :: x in selected ==> HasRequest(manualQuantities, x.id)
      modifies this`sent
      ensures sent == old(sent) + BulkTransactions(selected, manualQuantities, selectedWarehouse,
                                                   selectedPeriod, userName, stamps)
    {
      var i := 0;
      while i < |selected|
        invariant 0 <= i <= |selected|
        invariant sent == old(sent) + BulkTransactions(selected[..i], manualQuantities, selectedWarehouse,
                                                       selectedPeriod, userName, stamps)
      {
        var item := selected[i];
        assert item in selected;
        RequestIsEntered(manualQuantities, item.id);
        var val := ParseInt(manualQuantities[item.id]);
        assert val.value == ManualAmount(manualQuantities, item.id);
        BulkTransactionsStep(selected, manualQuantities, selectedWarehouse, selectedPeriod, userName, stamps, i);
        ProcessTransaction(item, val.value, stamps(i));
        i := i + 1;
      }
      assert selected[..i] == selected;
    }

    /**
     * `handleBulkSubmit`: the rows on screen whose entry asks for a positive quantity
     * are submitted in order, each with its own quantity, and then every entry is
     * cleared; with no such row nothing is emitted and the entries stay.
     */
    method BulkSubmit(stamps: nat -> Stamp) returns (notice: string)
      modifies this`manualQuantities, this`sent
      ensures var selected := Selected(FilteredCatalog(), old(manualQuantities));
        if selected == [] then
          && sent == old(sent) && manualQuantities == old(manualQuantities)
          && notice == NothingToSubmit
        else
          && sent == old(sent) + BulkTransactions(selected, old(manualQuantities), selectedWarehouse,
                                                  selectedPeriod, userName, stamps)
          && manualQuantities == map[]
          && notice == SubmittedNotice(|selected|)
    {
      var catalog := MasterCatalog(items, selectedWarehouse);
      var filtered := SearchCatalog(catalog, searchTerm);
      var manual := manualQuantities;
      var itemsToProcess := Selected(filtered, manual);
      if |itemsToProcess| == 0 {
        notice := NothingToSubmit;
        return;
      }
      SubmitEach(itemsToProcess, stamps);
      manualQuantities := map[];
      notice := SubmittedNotice(|itemsToProcess|);
    }
  }
}
