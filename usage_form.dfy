/** The usage request form (components/UsageForm.tsx): the bag list, the computed
    total, and the guard that decides whether a request is submitted. */
module UsageForm {
  import opened Types
  import opened Stock

  /** The form's state. An empty date field is None; the consumption field, which
      holds a number or the empty string, is None when empty. */
  datatype Form = Form(
    clientName: string,
    poNumber: string,
    shipmentDate: Option<Timestamp>,
    orderReceivedDate: Option<Timestamp>,
    fabricConsumptionPerPiece: Option<real>,
    bags: seq<Bag>,
    machineNameAndCapacity: string,
    drawingNumber: string,
    orderNumber: string)

  /** The entry `addBag` appends and the form starts with: no size, quantity 0. */
  const EmptyBag: Bag := Bag("", Some(0.0))

  const InitialBags: seq<Bag> := [EmptyBag]

  // ---------------------------------------------------------------------------
  // The total

  /** `bag.quantity || 0`: an empty (or zero) quantity counts as 0. */
  function QuantityOrZero(b: Bag): real {
    if b.quantity.Some? then b.quantity.value else 0.0
  }

  /** The `reduce` over the bags, folded from the left. */
  function TotalBagQuantity(bags: seq<Bag>): real {
    if bags == [] then 0.0 else TotalBagQuantity(bags[..|bags| - 1]) + QuantityOrZero(bags[|bags| - 1])
  }

  /** `fabricConsumptionPerPiece || 0` */
  function ConsumptionOrZero(form: Form): real {
    if form.fabricConsumptionPerPiece.Some? then form.fabricConsumptionPerPiece.value else 0.0
  }

  /** totalFabricUsed: 0 when the consumption is empty or 0, the bag total times the
      consumption otherwise. */
  function TotalFabricUsed(form: Form): real {
    if form.fabricConsumptionPerPiece.None? || form.fabricConsumptionPerPiece.value == 0.0 then 0.0
    else TotalBagQuantity(form.bags) * form.fabricConsumptionPerPiece.value
  }

  /** The early return for an empty or zero consumption agrees with the product:
      the total is always the bag total times the consumption (missing values as 0). */
  lemma {:induction false} TotalIsProduct(form: Form)
    ensures TotalFabricUsed(form) == TotalBagQuantity(form.bags) * ConsumptionOrZero(form)
    ensures ConsumptionOrZero(form) == 0.0 ==> TotalFabricUsed(form) == 0.0
  {
  }

  lemma {:induction false} TotalBagQuantitySplit(a: seq<Bag>, b: seq<Bag>)
    ensures TotalBagQuantity(a + b) == TotalBagQuantity(a) + TotalBagQuantity(b)
    decreases |b|
  {
    if b == [] {
      assert a + b == a;
    } else {
      var n := |b| - 1;
      assert (a + b)[..|a + b| - 1] == a + b[..n];
      assert (a + b)[|a + b| - 1] == b[n];
      TotalBagQuantitySplit(a, b[..n]);
    }
  }

  /** The bag total is the sum of the other bags plus the one at `i`. */
  lemma {:induction false} BagTotalAround(bags: seq<Bag>, i: nat)
    requires i < |bags|
    ensures TotalBagQuantity(bags) == TotalBagQuantity(bags[..i] + bags[i + 1..]) + QuantityOrZero(bags[i])
  {
    var pre, one, post := bags[..i], [bags[i]], bags[i + 1..];
    assert bags == pre + (one + post);
    TotalBagQuantitySplit(pre, one + post);
    TotalBagQuantitySplit(one, post);
    TotalBagQuantitySplit(pre, post);
    SingleBagTotal(bags[i]);
    assert TotalBagQuantity(bags) == TotalBagQuantity(pre) + QuantityOrZero(bags[i]) + TotalBagQuantity(post);
  }

  lemma {:induction false} SingleBagTotal(b: Bag)
    ensures TotalBagQuantity([b]) == QuantityOrZero(b)
  {
    assert [b][..0] == [];
  }

  // ---------------------------------------------------------------------------
  // The bag list

  /** `addBag`: append one empty bag. */
  function AddBag(bags: seq<Bag>): (r: seq<Bag>)
    ensures |r| == |bags| + 1 && r[..|bags|] == bags && r[|bags|] == EmptyBag
  {
    bags + [EmptyBag]
  }

  /** `removeBag`: with more than one bag, keep every entry whose position is not
      `index` (an index outside the list removes nothing); with one bag, no change. */
  function RemoveBag(bags: seq<Bag>, index: int): (r: seq<Bag>)
    ensures |bags| >= 1 ==> |r| >= 1
    ensures |bags| > 1 && 0 <= index < |bags| ==>
              |r| == |bags| - 1
              && (forall i :: 0 <= i < index ==> r[i] == bags[i])
              && (forall i :: index <= i < |r| ==> r[i] == bags[i + 1])
    ensures !(|bags| > 1 && 0 <= index < |bags|) ==> r == bags
  {
    if |bags| > 1 && 0 <= index < |bags| then bags[..index] + bags[index + 1..] else bags
  }

  /** The two fields `handleBagChange` can set. */
  datatype BagChange = SetSize(size: string) | SetQuantity(quantity: Option<real>)

  /** The list `handleBagChange` produces: the entry at `index` with one field set. */
  function ChangeBag(bags: seq<Bag>, index: nat, change: BagChange): (r: seq<Bag>)
    requires index < |bags|
    ensures |r| == |bags|
  {
    match change
    case SetSize(s) => bags[index := bags[index].(size := s)]
    case SetQuantity(q) => bags[index := bags[index].(quantity := q)]
  }

  /** `handleBagChange`: copy the list, then write the named field of the entry at
      `index`. */
  method HandleBagChange(bags: seq<Bag>, index: nat, change: BagChange) returns (newBags: seq<Bag>)
    requires index < |bags|
    ensures |newBags| == |bags|
    ensures forall i :: 0 <= i < |bags| && i != index ==> newBags[i] == bags[i]
    ensures change.SetSize? ==> newBags[index] == bags[index].(size := change.size)
    ensures change.SetQuantity? ==> newBags[index] == bags[index].(quantity := change.quantity)
    ensures newBags == ChangeBag(bags, index, change)
  {
    var copy := new Bag[|bags|](i requires 0 <= i < |bags| => bags[i]);
    match change {
      case SetSize(s) =>
        copy[index] := copy[index].(size := s);
      case SetQuantity(q) =>
        copy[index] := copy[index].(quantity := q);
    }
    newBags := copy[..];
  }

  /** Adding a bag leaves the total unchanged (its quantity is 0). */
  lemma {:induction false} AddBagKeepsTotal(bags: seq<Bag>)
    ensures TotalBagQuantity(AddBag(bags)) == TotalBagQuantity(bags)
  {
    TotalBagQuantitySplit(bags, [EmptyBag]);
    assert [EmptyBag][..0] == [];
  }

  /** Removing a bag lowers the total by exactly that bag's quantity. */
  lemma {:induction false} RemoveBagTotal(bags: seq<Bag>, index: int)
    requires |bags| > 1 && 0 <= index < |bags|
    ensures TotalBagQuantity(RemoveBag(bags, index)) == TotalBagQuantity(bags) - QuantityOrZero(bags[index])
  {
    BagTotalAround(bags, index);
  }

  /** Changing a bag's quantity moves the total by the difference; changing its size
      does not move it. */
  lemma {:induction false} BagChangeTotal(bags: seq<Bag>, index: nat, newBags: seq<Bag>, change: BagChange)
    requires index < |bags| && |newBags| == |bags|
    requires forall i :: 0 <= i < |bags| && i != index ==> newBags[i] == bags[i]
    requires change.SetSize? ==> newBags[index] == bags[index].(size := change.size)
    requires change.SetQuantity? ==> newBags[index] == bags[index].(quantity := change.quantity)
    ensures change.SetSize? ==> TotalBagQuantity(newBags) == TotalBagQuantity(bags)
    ensures change.SetQuantity? ==>
              TotalBagQuantity(newBags) == TotalBagQuantity(bags) - QuantityOrZero(bags[index])
                                            + QuantityOrZero(Bag("", change.quantity))
  {
    BagTotalAround(bags, index);
    BagTotalAround(newBags, index);
    assert newBags[..index] == bags[..index];
    assert newBags[index + 1..] == bags[index + 1..];
  }

  // ---------------------------------------------------------------------------
  // Blank text

  /** The characters JavaScript's `trim` removes: white space and line terminators. */
  predicate IsJsWhitespace(c: char) {
    c == '\U{0009}' || c == '\U{000B}' || c == '\U{000C}' || c == '\U{0020}' || c == '\U{00A0}'
    || c == '\U{1680}' || ('\U{2000}' <= c <= '\U{200A}') || c == '\U{202F}' || c == '\U{205F}'
    || c == '\U{3000}' || c == '\U{FEFF}'
    || c == '\U{000A}' || c == '\U{000D}' || c == '\U{2028}' || c == '\U{2029}'
  }

  /** The text holds nothing but white space (the empty text included). */
  predicate IsBlank(s: string) {
    forall i :: 0 <= i < |s| ==> IsJsWhitespace(s[i])
  }

  function TrimStart(s: string): (r: string)
    ensures |r| <= |s| && r == s[|s| - |r|..]
    ensures r != [] ==> !IsJsWhitespace(r[0])
    ensures IsBlank(s[..|s| - |r|])
  {
    if s != [] && IsJsWhitespace(s[0]) then
      var r := TrimStart(s[1..]);
      assert s[1..][..|s[1..]| - |r|] == s[1..|s| - |r|];
      r
    else s
  }

  function TrimEnd(s: string): (r: string)
    ensures |r| <= |s| && r == s[..|r|]
    ensures r != [] ==> !IsJsWhitespace(r[|r| - 1])
    ensures IsBlank(s[|r|..])
  {
    if s != [] && IsJsWhitespace(s[|s| - 1]) then
      var r := TrimEnd(s[..|s| - 1]);
      assert s[..|s| - 1][|r|..] == s[|r|..|s| - 1];
      assert s[|r|..] == s[|r|..|s| - 1] + [s[|s| - 1]];
      r
    else s
  }

  /** `trim`: drop the white space at both ends. */
  function Trim(s: string): string {
    TrimEnd(TrimStart(s))
  }

  /** `s.trim() !== ''` exactly when `s` holds a non-white-space character. */
  lemma {:induction false} TrimEmptyIffBlank(s: string)
    ensures Trim(s) == "" <==> IsBlank(s)
  {
    var t := TrimStart(s);
    var k := |s| - |t|;
    if Trim(s) == "" {
      assert IsBlank(t[0..]);
      assert t == [];
      forall i | 0 <= i < |s| ensures IsJsWhitespace(s[i]) {
        assert s[..k][i] == s[i];
      }
    }
    if IsBlank(s) {
      BlankTrimsToEmpty(s);
    }
  }

  lemma {:induction false} BlankTrimsToEmpty(s: string)
    requires IsBlank(s)
    ensures TrimStart(s) == ""
    decreases |s|
  {
    if s != [] {
      assert IsJsWhitespace(s[0]);
      BlankTrimsToEmpty(s[1..]);
    }
  }

  /** One edit of the bag list from the form's buttons and inputs. */
  datatype BagEdit = AddEdit | RemoveEdit(index: int) | ChangeEdit(index: int, change: BagChange)

  /** The bag list after a sequence of edits, applied first to last; a field edit at
      a position outside the list cannot be made from the form and changes nothing. */
  function ApplyEdits(bags: seq<Bag>, edits: seq<BagEdit>): seq<Bag>
    decreases |edits|
  {
    if edits == [] then bags
    else
      var prev := ApplyEdits(bags, edits[..|edits| - 1]);
      match edits[|edits| - 1]
      case AddEdit => AddBag(prev)
      case RemoveEdit(i) => RemoveBag(prev, i)
      case ChangeEdit(i, c) => if 0 <= i < |prev| then ChangeBag(prev, i, c) else prev
  }

  /** The form never shows an empty bag list: from the initial single bag, every
      sequence of edits leaves at least one bag. */
  lemma {:induction false} BagListNeverEmpty(edits: seq<BagEdit>)
    ensures |ApplyEdits(InitialBags, edits)| >= 1
    decreases |edits|
  {
    if edits != [] {
      BagListNeverEmpty(edits[..|edits| - 1]);
    }
  }

  // ---------------------------------------------------------------------------
  // Submission

  /** `canSubmit`: a PO number with a visible character, or an admin. */
  predicate CanSubmit(form: Form, isAdmin: bool) {
    Trim(form.poNumber) != "" || isAdmin
  }

  /** Every mandatory text and date field is non-empty. */
  predicate RequiredFieldsFilled(form: Form) {
    form.clientName != "" && form.shipmentDate.Some? && form.machineNameAndCapacity != ""
    && form.drawingNumber != "" && form.orderNumber != "" && form.poNumber != ""
    && form.orderReceivedDate.Some?
  }

  /** `handleSubmit` followed by `handleAddUsage`: when the guard passes, the Pending
      record that is appended to the fabric, with the submission instant `now` and the
      id `freshId` the caller generated; otherwise nothing. */
  function Submit(form: Form, availableStock: real, isAdmin: bool, now: Timestamp, freshId: string): (r: Option<Usage>)
    ensures r.Some? <==>
              0.0 < TotalFabricUsed(form) <= availableStock && RequiredFieldsFilled(form)
              && (!IsBlank(form.poNumber) || isAdmin)
    ensures r.Some? ==>
              r.value.status == Pending
              && r.value.totalFabricUsed == TotalBagQuantity(form.bags) * ConsumptionOrZero(form)
              && r.value.fabricConsumptionPerPiece == ConsumptionOrZero(form)
              && (r.value.submittedBy == Admin <==> isAdmin)
              && r.value.bags == form.bags && r.value.date == now && r.value.id == freshId
              && r.value.poNumber == form.poNumber && r.value.clientName == form.clientName
              && r.value.machineNameAndCapacity == form.machineNameAndCapacity
              && r.value.drawingNumber == form.drawingNumber && r.value.orderNumber == form.orderNumber
              && Some(r.value.shipmentDate) == form.shipmentDate
              && Some(r.value.orderReceivedDate) == form.orderReceivedDate
              && r.value.HasNoDeletionFields() && r.value.actionBy.None? && r.value.actionDate.None?
  {
    TrimEmptyIffBlank(form.poNumber);
    TotalIsProduct(form);
    var total := TotalFabricUsed(form);
    if total > 0.0 && total <= availableStock && form.clientName != "" && form.shipmentDate.Some?
       && CanSubmit(form, isAdmin) && form.machineNameAndCapacity != "" && form.drawingNumber != ""
       && form.orderNumber != "" && form.poNumber != "" && form.orderReceivedDate.Some?
    then
      Some(Usage(
        freshId, now, if isAdmin then Admin else User,
        form.clientName, form.poNumber, form.machineNameAndCapacity, form.drawingNumber,
        form.orderNumber, form.shipmentDate.value, form.orderReceivedDate.value, form.bags,
        ConsumptionOrZero(form), total, Pending,
        None, None, None, None, None, None, None))
    else None
  }

  /** A PO number of white space only gets through for an admin and never for a
      user, since `canSubmit` needs a visible character unless the submitter is an
      admin, while the guard still needs the field non-empty. */
  lemma {:induction false} BlankPoOnlyForAdmin(form: Form, availableStock: real, isAdmin: bool, now: Timestamp, freshId: string)
    requires IsBlank(form.poNumber)
    ensures Submit(form, availableStock, isAdmin, now, freshId).Some? ==> isAdmin && form.poNumber != ""
    ensures isAdmin && form.poNumber != "" && RequiredFieldsFilled(form)
            && 0.0 < TotalFabricUsed(form) <= availableStock
            ==> Submit(form, availableStock, isAdmin, now, freshId).Some?
  {
  }

  /** The stock check: appending the submitted request leaves the stock as it was
      (it is Pending), and confirming it straight away leaves the stock non-negative
      when the form was shown that fabric's available stock. */
  lemma {:induction false} SubmittedRequestFitsStock(form: Form, f: Fabric, isAdmin: bool, now: Timestamp, freshId: string)
    requires Submit(form, AvailableStock(f), isAdmin, now, freshId).Some?
    ensures var u := Submit(form, AvailableStock(f), isAdmin, now, freshId).value;
            AvailableStock(f.(transactions := f.transactions + [UsageTx(u)])) == AvailableStock(f)
            && AvailableStock(f.(transactions := f.transactions + [UsageTx(u.(status := Confirmed))])) >= 0.0
  {
    var u := Submit(form, AvailableStock(f), isAdmin, now, freshId).value;
    AppendEffect(f, UsageTx(u));
    AppendEffect(f, UsageTx(u.(status := Confirmed)));
  }
}
