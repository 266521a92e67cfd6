/** The add/edit expense form: its state, the participant toggle, the reset and the
    edit-load that fill it, and the submission that validates it and builds the expense's
    split details. */
module ExpenseForm {
  import opened Wrappers
  import opened Lists
  import opened Money
  import opened Types
  import Ledger

  /** What the form shows as its error line. */
  datatype FormError =
    | NoError
    | MissingFields
    | AmountsMismatch(expected: real, total: real)  // `Amounts must add up to ...`

  /** The form's state. `amount` is None while the field is empty (`''`); `customSplits`
      holds the per-participant value typed in for a non-equal split. */
  datatype Form = Form(
    description: string,
    amount: Option<real>,
    paidById: string,
    date: string,
    splitType: SplitType,
    splitBetween: seq<string>,
    customSplits: map<string, real>,
    error: FormError,
    isSubmitting: bool)

  // ---------------------------------------------------------------------------
  // Choosing the participants

  /** `handleSplitBetweenChange`: a selected id is removed (every occurrence of it), an
      unselected one is appended at the end. */
  function Toggle(ids: seq<string>, id: string): seq<string>
  {
    if id in ids then Without(ids, x => x == id) else ids + [id]
  }

  /** Toggling flips whether `id` is selected and leaves every other id, and how often it
      occurs, as it was; an id that was not selected is appended at the end, and removing
      one keeps the other ids in their order: whatever split `before + after` of the list is
      taken, the result is the rest of `before` followed by the rest of `after`. */
  lemma ToggleMeaning(ids: seq<string>, id: string, before: seq<string>, after: seq<string>)
    requires ids == before + after
    ensures id in Toggle(ids, id) <==> id !in ids
    ensures forall x | x != id :: multiset(Toggle(ids, id))[x] == multiset(ids)[x]
    ensures id !in ids ==> |Toggle(ids, id)| == |ids| + 1 && Toggle(ids, id)[..|ids|] == ids
    ensures id in ids ==> Toggle(ids, id) == Without(before, x => x == id) + Without(after, x => x == id)
  {
    if id !in ids {
      assert (ids + [id])[..|ids|] == ids;
    } else {
      WithoutMeaning(ids, x => x == id);
      WithoutAppend(before, after, x => x == id);
    }
  }

  /** Toggling the same id twice gives back the same selection: exactly the same list when
      the id was not selected, and the same ids when it was. */
  lemma ToggleTwice(ids: seq<string>, id: string)
    ensures forall x :: x in Toggle(Toggle(ids, id), id) <==> x in ids
    ensures id !in ids ==> Toggle(Toggle(ids, id), id) == ids
  {
    if id !in ids {
      WithoutAppend(ids, [id], x => x == id);
      WithoutNothing(ids, x => x == id);
      assert Without([id], x => x == id) == [];
    } else {
      WithoutMeaning(ids, x => x == id);
    }
  }

  // ---------------------------------------------------------------------------
  // Filling the form

  /** `resetForm`: everything is cleared, the date becomes today, the payer is the first
      friend and every friend takes part; with no friends there is neither. The submitting
      flag is not touched. */
  function Reset(form: Form, friends: seq<Friend>, today: string): Form
  {
    form.(
      description := "",
      amount := None,
      date := today,
      splitType := Equally,
      paidById := if |friends| > 0 then friends[0].id else "",
      splitBetween := seq(|friends|, i requires 0 <= i < |friends| => friends[i].id),
      customSplits := map[],
      error := NoError)
  }

  /** After a reset the payer is the first friend and every friend, in order, takes part;
      with no friends there is no payer and nobody takes part. */
  lemma ResetMeaning(form: Form, friends: seq<Friend>, today: string)
    ensures var r := Reset(form, friends, today);
      && |r.splitBetween| == |friends|
      && (forall i | 0 <= i < |friends| :: r.splitBetween[i] == friends[i].id)
      && (|friends| > 0 ==> r.paidById == friends[0].id && r.paidById in r.splitBetween)
      && (|friends| == 0 ==> r.paidById == "" && r.splitBetween == [])
      && r.isSubmitting == form.isSubmitting
  {
    var r := Reset(form, friends, today);
    if |friends| > 0 {
      assert r.splitBetween[0] == friends[0].id;
    }
  }

  /** The value the edit-load puts in the custom field of a participant: the detail's field
      that matches the split type, 0 when it is missing. */
  function CustomValue(t: SplitType, d: SplitDetail): real
  {
    match t
    case ByAmount => d.amount.GetOr(0.0)
    case ByPercentage => d.percentage.GetOr(0.0)
    case ByShares => d.shares.GetOr(0.0)
    case Equally => 0.0
  }

  /** The custom values after the details, taken in order: a participant listed twice
      keeps its last value. */
  function CustomValues(t: SplitType, details: seq<SplitDetail>): map<string, real>
  {
    if details == [] then map[]
    else
      var d := details[|details| - 1];
      CustomValues(t, details[..|details| - 1])[d.friendId := CustomValue(t, d)]
  }

  /** The custom values hold exactly the participants. */
  lemma {:induction false} CustomValuesKeys(t: SplitType, details: seq<SplitDetail>)
    ensures forall k :: k in CustomValues(t, details) <==> k in Participants(details)
  {
    if details != [] {
      var front := details[..|details| - 1];
      CustomValuesKeys(t, front);
      assert Participants(details) == Participants(front) + [details[|details| - 1].friendId];
    }
  }

  /** Each participant's custom value is that of its last detail. */
  lemma {:induction false} CustomValuesMeaning(t: SplitType, details: seq<SplitDetail>)
    ensures forall i | 0 <= i < |details| && (forall j | i < j < |details| :: details[j].friendId != details[i].friendId) ::
      && details[i].friendId in CustomValues(t, details)
      && CustomValues(t, details)[details[i].friendId] == CustomValue(t, details[i])
  {
    if details != [] {
      var front := details[..|details| - 1];
      CustomValuesMeaning(t, front);
      assert forall i | 0 <= i < |front| :: front[i] == details[i];
    }
  }

  /** The `forEach` that fills `custom` for a non-equal expense. */
  method BuildCustom(e: Expense) returns (custom: map<string, real>)
    ensures custom == CustomValues(e.splitType, e.splitBetween)
  {
    custom := map[];
    for k := 0 to |e.splitBetween|
      invariant custom == CustomValues(e.splitType, e.splitBetween[..k])
    {
      var d := e.splitBetween[k];
      var value := 0.0;
      if e.splitType == ByAmount { value := d.amount.GetOr(0.0); }
      if e.splitType == ByPercentage { value := d.percentage.GetOr(0.0); }
      if e.splitType == ByShares { value := d.shares.GetOr(0.0); }
      assert e.splitBetween[..k + 1][..k] == e.splitBetween[..k];
      custom := custom[d.friendId := value];
    }
    assert e.splitBetween[..|e.splitBetween|] == e.splitBetween;
  }

  /** The form filled from an expense being edited; its error line and submitting flag stay
      as they were. */
  function Loaded(form: Form, e: Expense): Form
  {
    form.(
      description := e.description,
      amount := Some(e.amount),
      paidById := e.paidById,
      date := e.date,
      splitType := e.splitType,
      splitBetween := Participants(e.splitBetween),
      customSplits := if e.splitType != Equally then CustomValues(e.splitType, e.splitBetween) else map[])
  }

  /** The `useEffect` run when the form opens: load the expense to edit, if any, or reset. */
  method Open(form: Form, toEdit: Option<Expense>, friends: seq<Friend>, today: string) returns (r: Form)
    ensures toEdit.Some? ==> r == Loaded(form, toEdit.value)
    ensures toEdit.None? ==> r == Reset(form, friends, today)
  {
    match toEdit
    case None =>
      r := Reset(form, friends, today);
    case Some(e) =>
      var custom: map<string, real> := map[];
      if e.splitType != Equally {
        custom := BuildCustom(e);
      }
      r := form.(
        description := e.description,
        amount := Some(e.amount),
        paidById := e.paidById,
        date := e.date,
        splitType := e.splitType,
        splitBetween := Participants(e.splitBetween),
        customSplits := custom);
  }

  // ---------------------------------------------------------------------------
  // Submitting

  /** The first check of `handleSubmit`: a submission in progress, an empty description, a
      missing or non-positive amount, no payer or no participant. */
  predicate Incomplete(form: Form)
  {
    || form.isSubmitting
    || form.description == ""
    || form.amount.None?
    || form.amount.value <= 0.0
    || form.paidById == ""
    || |form.splitBetween| == 0
  }

  /** The custom values of the selected participants, a missing one as 0. */
  function CustomAmounts(form: Form): (r: seq<real>)
    ensures |r| == |form.splitBetween|
    ensures forall i | 0 <= i < |r| :: r[i] == Get(form.customSplits, form.splitBetween[i])
  {
    seq(|form.splitBetween|, i requires 0 <= i < |form.splitBetween| => Get(form.customSplits, form.splitBetween[i]))
  }

  /** The split details the submission builds: one bare entry per participant for an equal
      split, one carrying its custom amount for a split by amounts, and none at all for the
      other two split types, which have no branch of their own. */
  function Details(form: Form): seq<SplitDetail>
  {
    match form.splitType
    case Equally =>
      seq(|form.splitBetween|, i requires 0 <= i < |form.splitBetween| => SplitDetail(form.splitBetween[i], None, None, None))
    case ByAmount =>
      seq(|form.splitBetween|, i requires 0 <= i < |form.splitBetween| =>
        SplitDetail(form.splitBetween[i], Some(Get(form.customSplits, form.splitBetween[i])), None, None))
    case _ => []
  }

  /** What a submission leaves: the form's new state and the expense handed over, if any. */
  datatype Submission = Submission(form: Form, saved: Option<ExpenseInput>)

  /** `handleSubmit`, for the expense being edited (if any). The save call and the closing of
      the form are not modelled; the form is left as it is once the save has returned. */
  function Submit(form: Form, editing: Option<Expense>): Submission
  {
    if Incomplete(form) then Submission(form.(error := MissingFields), None)
    else
      var amount := form.amount.value;
      var total := Sum(CustomAmounts(form));
      if form.splitType == ByAmount && Abs(total - amount) > Eps then
        Submission(form.(error := AmountsMismatch(amount, total), isSubmitting := false), None)
      else
        var id := if editing.Some? then Some(editing.value.id) else None;
        Submission(
          form.(error := NoError, isSubmitting := false),
          Some(ExpenseInput(id, form.description, amount, form.paidById, form.date, form.splitType, Details(form))))
  }

  /** A submission is accepted exactly when the form is complete and, for a split by
      amounts, the custom amounts add up to the amount within a cent; an incomplete form
      shows the missing-fields error and a mismatch shows both sums. */
  lemma SubmitOutcome(form: Form, editing: Option<Expense>)
    ensures var r := Submit(form, editing);
      && (r.saved.Some? <==>
            !Incomplete(form) && (form.splitType == ByAmount ==> Abs(Sum(CustomAmounts(form)) - form.amount.value) <= Eps))
      && (Incomplete(form) ==> r.form.error == MissingFields && r.form.isSubmitting == form.isSubmitting)
      && (!Incomplete(form) && r.saved.None? ==>
            r.form.error == AmountsMismatch(form.amount.value, Sum(CustomAmounts(form))))
      && !r.form.isSubmitting == (r.saved.Some? || !form.isSubmitting)
  {
  }

  /** An accepted submission hands over the form's fields; an edit keeps the edited
      expense's id and a new expense has none. */
  lemma SavedFields(form: Form, editing: Option<Expense>)
    requires Submit(form, editing).saved.Some?
    ensures var input := Submit(form, editing).saved.value;
      && input.description == form.description && input.description != ""
      && Some(input.amount) == form.amount && input.amount > 0.0
      && input.paidById == form.paidById && input.paidById != ""
      && input.date == form.date && input.splitType == form.splitType
      && (editing.Some? ==> input.id == Some(editing.value.id))
      && (editing.None? ==> input.id.None?)
  {
  }

  /** For an equal split or a split by amounts there is one detail per selected
      participant, in selection order; an equal split's details carry no value and a split
      by amounts' carry each participant's custom amount (0 when missing). For the other two
      split types there are none. */
  lemma SavedDetails(form: Form, editing: Option<Expense>)
    requires Submit(form, editing).saved.Some?
    ensures var details := Submit(form, editing).saved.value.splitBetween;
      && (form.splitType == Equally || form.splitType == ByAmount ==>
            && |details| == |form.splitBetween| > 0
            && forall i | 0 <= i < |details| :: details[i].friendId == form.splitBetween[i])
      && (form.splitType == Equally ==>
            forall i | 0 <= i < |details| :: details[i].amount.None? && details[i].percentage.None? && details[i].shares.None?)
      && (form.splitType == ByAmount ==>
            forall i | 0 <= i < |details| :: details[i].amount == Some(Get(form.customSplits, form.splitBetween[i])))
      && (form.splitType == ByPercentage || form.splitType == ByShares ==> details == [])
  {
  }

  /** What the ledger makes of an accepted submission: an equal split debits exactly the
      amount, a split by amounts debits it to within a cent, and a split by percentages or
      shares debits nobody, so the payer is credited the whole amount and the balances no
      longer add up to 0. */
  lemma SavedExpenseInLedger(form: Form, editing: Option<Expense>, newId: string)
    requires Submit(form, editing).saved.Some?
    ensures var e := Submit(form, editing).saved.value.WithId(newId);
      && (form.splitType == Equally ==> Sum(Ledger.Resolve(e)) == e.amount)
      && (form.splitType == ByAmount ==> Abs(Sum(Ledger.Resolve(e)) - e.amount) <= Eps)
      && (form.splitType == ByPercentage || form.splitType == ByShares ==>
            Ledger.Resolve(e) == [] && Ledger.Imbalance([e]) == e.amount)
  {
    var e := Submit(form, editing).saved.value.WithId(newId);
    SavedDetails(form, editing);
    match form.splitType
    case Equally =>
      Ledger.EqualSplitTotal(e);
    case ByAmount =>
      Ledger.AmountSplitTotal(e);
      assert Ledger.Resolve(e) == CustomAmounts(form);
    case _ =>
      Ledger.UndividedExpenseOnlyCredits(Ledger.Start([]), e);
  }

  /** The custom amounts of a form loaded from a split by amounts whose participants are
      distinct are the participants' own amounts. */
  lemma LoadedAmounts(form: Form, e: Expense)
    requires e.splitType == ByAmount
    requires forall i, j | 0 <= i < j < |e.splitBetween| :: e.splitBetween[i].friendId != e.splitBetween[j].friendId
    ensures CustomAmounts(Loaded(form, e)) == seq(|e.splitBetween|, i requires 0 <= i < |e.splitBetween| =>
      e.splitBetween[i].amount.GetOr(0.0))
  {
    CustomValuesMeaning(e.splitType, e.splitBetween);
    var f := Loaded(form, e);
    forall i | 0 <= i < |e.splitBetween|
      ensures CustomAmounts(f)[i] == e.splitBetween[i].amount.GetOr(0.0)
    {
      assert e.splitBetween[i].friendId in f.customSplits;
    }
  }

  /** Opening an expense for edit and submitting it unchanged saves it back under its own
      id with the same fields and participants, provided it was valid to begin with: an
      equal split among some participants, or a split by amounts among distinct
      participants whose amounts add up to within a cent. Its details come back without the
      fields the split type does not use, and a missing amount comes back as 0. */
  lemma EditRoundTrip(form: Form, e: Expense)
    requires !form.isSubmitting
    requires e.description != "" && e.amount > 0.0 && e.paidById != "" && |e.splitBetween| > 0
    requires e.splitType == Equally || e.splitType == ByAmount
    requires e.splitType == ByAmount ==>
      && (forall i, j | 0 <= i < j < |e.splitBetween| :: e.splitBetween[i].friendId != e.splitBetween[j].friendId)
      && Abs(Sum(seq(|e.splitBetween|, i requires 0 <= i < |e.splitBetween| => e.splitBetween[i].amount.GetOr(0.0))) - e.amount) <= Eps
    ensures var r := Submit(Loaded(form, e), Some(e));
      && r.saved.Some?
      && r.saved.value.WithId(e.id) == e.(splitBetween := r.saved.value.splitBetween)
      && r.saved.value.id == Some(e.id)
      && Participants(r.saved.value.splitBetween) == Participants(e.splitBetween)
      && (e.splitType == ByAmount ==> forall i | 0 <= i < |e.splitBetween| ::
            r.saved.value.splitBetween[i].amount == Some(e.splitBetween[i].amount.GetOr(0.0)))
  {
    var f := Loaded(form, e);
    if e.splitType == ByAmount {
      LoadedAmounts(form, e);
    }
    SavedDetails(f, Some(e));
    var details := Submit(f, Some(e)).saved.value.splitBetween;
    assert Participants(details) == Participants(e.splitBetween);
  }

  /** A freshly reset form for a party with friends, once a description and a positive
      amount are typed in, submits an equal split among all the friends, paid by the first. */
  lemma ResetThenSubmit(form: Form, friends: seq<Friend>, today: string, description: string, amount: real)
    requires !form.isSubmitting && |friends| > 0 && friends[0].id != ""
    requires description != "" && amount > 0.0
    ensures var f := Reset(form, friends, today).(description := description, amount := Some(amount));
      var r := Submit(f, None);
      && r.saved.Some?
      && r.saved.value.paidById == friends[0].id
      && r.saved.value.splitType == Equally
      && |r.saved.value.splitBetween| == |friends|
      && (forall i | 0 <= i < |friends| :: r.saved.value.splitBetween[i] == SplitDetail(friends[i].id, None, None, None))
  {
  }
}
