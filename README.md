# PartySplit ledger and list edits, in Dafny

PartySplit Studio keeps "parties": shared-expense groups with a member roster, a task
list and itemised expenses. Each expense is paid by one member and split among some
members in one of four ways: equally, by amount, by percentage or by shares. This project
models the application's core and proves properties of that model.

- **The settlement view** (`simplifiedDebts` in `components/BalanceSummary.tsx`):
  - computes each member's net balance from the expenses, under the four split rules;
  - splits the members into debtors (below -0.01) and creditors (above +0.01);
  - settles them greedily: the first debtor repeatedly pays the first creditor the
    smaller of the two amounts.
- **The totals view** (`totalBalance`): always splits every expense equally, then sorts
  the members from the largest balance down.
- **The list edits the views feed into the party**:
  - the expense form: participant toggle, reset, edit-load, and validation with
    split-detail construction on submit;
  - task add, edit, toggle and delete;
  - friend add and delete;
  - expense save (replace or append) and the newest-first sort of the expense list;
  - the application's list of parties (`hooks/useParties.ts`), modelled as a class whose
    `parties` sequence each operation replaces.

Module by module:

- `Wrappers`, `Lists`, `Money`, `Text`: Option; filter and map-where on sequences; sums;
  the 0.01 tolerance; JavaScript's `trim`, over its white-space and line-terminator
  characters (every Unicode Zs space included).
- `Types`: the records of `types.ts`.
- `Ledger`: the net balances. Built by loops in `ComputeBalances` and specified by the
  fold `Balances`.
- `Settlement`: the partition and the greedy loop. `SimplifiedDebts` and `PayOff` are
  specified by the recursive `Settle`.
- `Totals`: `totalBalance`.
- `ExpenseForm`, `Tasks`, `Friends`, `Expenses`, `Parties`: the UI-side state
  transitions.

Money is an exact `real`, and 0.01 is the named constant `Money.Eps`.

Ids and dates that the source generates (`new Date().toISOString()`) are parameters. So
are the results of back-end calls, where `None` stands for a call that failed.

**Ids that are not friends.** An expense can name a payer or a participant that is no
longer a friend, for example after the friend was deleted. The source then applies `+=`
or `-=` to an `undefined` dictionary entry, which produces NaN. The model represents that
NaN as a *poisoned* ledger entry:

- The first `+=`/`-=` on a missing key adds the key at the end of the dictionary's
  insertion order with the value `Poisoned`.
- A poisoned entry stays poisoned.
- A poisoned entry fails both the debtor test and the creditor test, so it takes no part
  in the settlement (`OrphanPayerPoisoned`, `SidesAreFriends`).

Giving such an id a fresh zero entry would keep every balance numeric. The code does not
do that, and the model follows the code.

**Order of the dictionary.** `Object.entries` lists string keys in insertion order. Keys
that look like array indices are the exception, but the generated ids are ISO timestamps,
which never look like one. So the debtor and creditor lists follow the ledger's insertion
order: the friends first, in roster order (`StartOrder`, `FriendsComeFirst`).

## Model

| member | source | states |
|---|---|---|
| Types.FindFriend | components/BalanceSummary.tsx:66 | The result is None iff no friend has the id; otherwise it is the first friend with that id. |
| Types.DisplayName | components/BalanceSummary.tsx:66-67 | The name of the first friend with the id, or the fallback when there is no such friend or its name is empty; a result other than the fallback is a non-empty name of a friend with that id. |
| Ledger.Start | components/BalanceSummary.tsx:13-14 | The starting ledger has exactly the friend ids as keys, all at 0, with distinct keys in its order. |
| Ledger.SetZero | components/BalanceSummary.tsx:14 | Setting an entry to 0 keeps every other entry and the existing order and adds at most this key. |
| Ledger.AdjustFacts | components/BalanceSummary.tsx:17-43 | `+=`/`-=` on a numeric entry adds the delta; on a missing or poisoned entry it leaves a poisoned entry; no other entry changes and the order only grows. |
| Ledger.SharesOf | components/BalanceSummary.tsx:40 | One share count per participant, a missing one as 0. |
| Ledger.Resolve | components/BalanceSummary.tsx:19-46 | One debit per participant when the expense divides at all; no debit when there are no participants or the shares add up to 0 or less. |
| Ledger.ApplyExpenseFacts | components/BalanceSummary.tsx:16-48 | After an expense, the payer and every debited participant have ledger entries, and the earlier order is kept. |
| Ledger.DebitFacts | components/BalanceSummary.tsx:25-44 | Debiting participants only appends to the key order and only adds keys, one for every participant debited so far; distinct keys stay distinct. |
| Ledger.DebitTracks | components/BalanceSummary.tsx:25-44 | Debiting keeps every friend numeric and every other key poisoned. |
| Ledger.ApplyAllFacts | components/BalanceSummary.tsx:16-48 | Recording the expenses only appends to the key order and only adds keys; distinct keys stay distinct. |
| Ledger.ApplyAllKeys | components/BalanceSummary.tsx:16-48 | After all expenses, every payer has an entry, and so does every participant of an expense that debits anyone. |
| Ledger.StartBalances | components/BalanceSummary.tsx:13-14 | The initialising loop yields `Start(friends)`. |
| Ledger.RecordExpense | components/BalanceSummary.tsx:17-47 | The loop over one expense's participants yields `ApplyExpense` of it. |
| Ledger.ComputeBalances | components/BalanceSummary.tsx:13-48 | The balance loops yield `Balances(friends, expenses)`, a ledger whose order has distinct keys. |
| Ledger.EqualSplitTotal | components/BalanceSummary.tsx:23-27 | An equal split debits each listed participant `amount / n`, so an id listed twice is debited twice; the debits add up to exactly the amount. |
| Ledger.AmountSplitTotal | components/BalanceSummary.tsx:29-33 | A split by amounts debits each participant their amount, a missing one as 0. |
| Ledger.PercentageSplitTotal | components/BalanceSummary.tsx:34-38 | A split by percentages debits in total `amount * (sum of percentages) / 100`, a missing percentage as 0. |
| Ledger.SharesSplitTotal | components/BalanceSummary.tsx:39-46 | With a positive share total, the debits add up to exactly the amount. |
| Ledger.UndividedExpenseOnlyCredits | components/BalanceSummary.tsx:17-20 | An expense with no participants, or shares that add up to 0 or less, only credits the payer, which leaves the balances off by the whole amount. |
| Ledger.StartOrder | components/BalanceSummary.tsx:14 | With distinct friend ids, the starting ledger's key order is exactly the friend ids in roster order. |
| Ledger.StartAppends | components/BalanceSummary.tsx:14 | Setting a new friend's id to 0 appends that id to the key order. |
| Ledger.FriendsComeFirst | components/BalanceSummary.tsx:50-56 | The friends' keys stay at the front of the key order whatever the expenses add. |
| Ledger.FriendsStayNumeric | components/BalanceSummary.tsx:14-48 | A friend's entry is never poisoned. |
| Ledger.OrphanPayerPoisoned | components/BalanceSummary.tsx:17 | A payer that is not a friend ends with a poisoned (NaN) entry. |
| Ledger.OrphanParticipantPoisoned | components/BalanceSummary.tsx:26-43 | A debited participant that is not a friend ends with a poisoned entry. |
| Ledger.AdjustClean | components/BalanceSummary.tsx:17-43 | `+=`/`-=` on an existing numeric entry keeps the ledger's keys and keeps every entry numeric. |
| Ledger.AdjustTotal | components/BalanceSummary.tsx:17-43 | `+=`/`-=` on an existing numeric entry keeps the keys numeric and moves the sum of the balances by exactly that delta. |
| Ledger.DebitClean | components/BalanceSummary.tsx:25-44 | Debiting friends only keeps the ledger's keys and keeps every entry numeric. |
| Ledger.DebitTotal | components/BalanceSummary.tsx:25-44 | Debiting friends takes exactly the sum of the debited amounts out of the sum of the balances. |
| Ledger.ApplyExpenseTotal | components/BalanceSummary.tsx:16-48 | Over friends only, one expense changes the sum of the balances by its amount minus its debits. |
| Ledger.ApplyAllTotal | components/BalanceSummary.tsx:16-48 | Over friends only, the expenses change the sum of the balances by their total imbalance. |
| Ledger.BalancesTotal | components/BalanceSummary.tsx:13-48 | When every id is a friend, no entry is poisoned and the balances add up to the expenses' total imbalance. |
| Ledger.NoImbalance | components/BalanceSummary.tsx:23-46 | Equal splits with participants and share splits with a positive total leave no imbalance. |
| Ledger.MoneyIsConserved | components/BalanceSummary.tsx:13-48 | When every id is a friend and every expense splits equally among some participants or by positive shares, the balances add up to 0. |
| Settlement.Entries | components/BalanceSummary.tsx:50-56 | The filtered entries are no more than the keys. |
| Settlement.EntriesMeaning | components/BalanceSummary.tsx:50-56 | An item is selected iff its key is in the order, its entry is numeric with that amount, and the filter accepts it; poisoned entries are never selected. |
| Settlement.SidesAreSigned | components/BalanceSummary.tsx:50-56 | Every debtor is below -0.01 and every creditor above +0.01. |
| Settlement.DebtorsAreNotCreditors | components/BalanceSummary.tsx:50-56 | No id is both a debtor and a creditor. |
| Settlement.SidesAreFriends | components/BalanceSummary.tsx:50-56 | Every debtor and creditor is a friend. |
| Settlement.SettleStep | components/BalanceSummary.tsx:60-76 | Each round pays `min(-debt, credit)` from the first debtor to the first creditor and drops at least one head. |
| Settlement.StepKeepsSigns | components/BalanceSummary.tsx:63-75 | A round pays at least a cent, leaves the debtor at or below 0 and the creditor at or above 0, and keeps both lists signed. |
| Settlement.Update | components/BalanceSummary.tsx:71-75 | A worklist whose head's amount became `v` drops that head when it is within a cent of 0, and otherwise keeps it with amount `v`, as `Next` states. |
| Settlement.Round | components/BalanceSummary.tsx:61-75 | One round pays `min(-debt, credit)` from the first debtor to the first creditor, updates both heads as `Next` states, and shortens the two lists together. |
| Settlement.Maintain | components/BalanceSummary.tsx:60-76 | One round keeps the loop's invariants: the payments so far followed by the settlement of what is left are the whole settlement, and the pushed debts name the payments so far. |
| Settlement.SettleLength | components/BalanceSummary.tsx:60 | The loop stops when either list is empty and makes fewer rounds than debtors plus creditors. |
| Settlement.SettleAmounts | components/BalanceSummary.tsx:63-75 | Every payment is at least 0.01. |
| Settlement.SettleParties | components/BalanceSummary.tsx:61-62 | Every payment goes from a debtor to a creditor. |
| Settlement.SettleAccounts | components/BalanceSummary.tsx:60-76 | The payments never exceed what the debtors owe or what the creditors are due, and one side ends within a cent per member of being settled. |
| Settlement.Named | components/BalanceSummary.tsx:65-69 | One named debt per payment. |
| Settlement.NamedAppend | components/BalanceSummary.tsx:65-69 | A pushed debt carries the names of payer and payee, or 'Unknown', and the amount. |
| Settlement.PayOff | components/BalanceSummary.tsx:58-78 | The `while` loop over the two worklists yields the named greedy settlement `Settle(ds, cs)`. |
| Settlement.SimplifiedDebts | components/BalanceSummary.tsx:10-79 | `simplifiedDebts` yields the named greedy settlement of the debtors and creditors of `Balances(friends, expenses)`. |
| Settlement.PartySettlement | components/BalanceSummary.tsx:50-76 | Every debt is at least a cent, between two different friends; there are fewer debts than debtors plus creditors; the total paid is within what is owed and what is due. |
| Settlement.NoFriendsNoDebts | components/BalanceSummary.tsx:11 | With no friends there is neither a debtor nor a creditor, so no debt. |
| Totals.Rows | components/BalanceSummary.tsx:94-97 | One row per friend, in friend order, with its map value (missing as 0). |
| Totals.Insert | components/BalanceSummary.tsx:98 | Inserting into a list sorted by decreasing amount keeps it sorted and adds only the new row. |
| Totals.InsertPermutes | components/BalanceSummary.tsx:98 | Inserting adds exactly the new row. |
| Totals.SortByAmount | components/BalanceSummary.tsx:98 | The sorted rows run from the largest amount down. |
| Totals.SortPermutes | components/BalanceSummary.tsx:98 | Sorting keeps exactly the same rows. |
| Totals.TotalBalance | components/BalanceSummary.tsx:81-99 | The three loops and the sort yield the sorted rows of the tallied map. |
| Totals.ZeroesAreZero | components/BalanceSummary.tsx:84 | The starting map reads 0 for every id. |
| Totals.TalliedMeaning | components/BalanceSummary.tsx:86-91 | An expense adds its amount to the payer and subtracts `amount / n` once per listing of an id. |
| Totals.TallyAllMeaning | components/BalanceSummary.tsx:86-92 | Each id ends at what it paid minus its equal shares, `Net`. |
| Totals.TotalsIgnoreSplitDetails | components/BalanceSummary.tsx:89-91 | The totals depend only on participants, never on split type or detail fields. |
| Totals.TotalsMeaning | components/BalanceSummary.tsx:81-99 | The result holds one row per friend with its net amount, sorted from the largest down. |
| Totals.TotalsAgreeWithLedger | components/BalanceSummary.tsx:86-91 | For equal splits among friends, the totals view and the settlement ledger give every friend the same balance. |
| ExpenseForm.ToggleMeaning | components/AddExpenseModal.tsx:75-79 | After a toggle the id is selected iff it was not before; other ids keep their counts; a new id is appended at the end, and a removal keeps the other ids in their order (the filter distributes over any split of the list). |
| ExpenseForm.ToggleTwice | components/AddExpenseModal.tsx:75-79 | Toggling twice restores the set of ids, and the exact list when the id was not selected. |
| Types.Participants | components/AddExpenseModal.tsx:34 | The participants are the details' friend ids, in order. |
| ExpenseForm.ResetMeaning | components/AddExpenseModal.tsx:55-69 | After reset, every friend is a participant in order and the payer is the first friend; with no friends both are empty. |
| ExpenseForm.CustomValuesKeys | components/AddExpenseModal.tsx:38-45 | The loaded custom values have exactly the participants as keys. |
| ExpenseForm.CustomValuesMeaning | components/AddExpenseModal.tsx:39-44 | Each participant's loaded value is the field its split type uses, 0 when absent; the last listing wins. |
| ExpenseForm.BuildCustom | components/AddExpenseModal.tsx:38-45 | The dictionary loop yields `CustomValues`. |
| ExpenseForm.Open | components/AddExpenseModal.tsx:26-53 | Opening loads the expense to edit, or resets the form. |
| ExpenseForm.CustomAmounts | components/AddExpenseModal.tsx:101 | The custom values of the selected participants, missing as 0. |
| ExpenseForm.SubmitOutcome | components/AddExpenseModal.tsx:89-106 | A submission is saved iff the form is complete and, for a split by amounts, the amounts add up to within 0.01; otherwise the right error is shown. |
| ExpenseForm.SavedFields | components/AddExpenseModal.tsx:111-124 | A saved expense carries the form's fields; an edit keeps the edited expense's id. |
| ExpenseForm.SavedDetails | components/AddExpenseModal.tsx:96-109 | Equal: one bare detail per selected id, in order. By amount: the same details carrying custom amounts. By percentage or shares: no details. |
| ExpenseForm.SavedExpenseInLedger | components/AddExpenseModal.tsx:96-109 | A saved equal split debits exactly its amount and a split by amounts within a cent; percentage and share submissions only credit the payer. |
| ExpenseForm.LoadedAmounts | components/AddExpenseModal.tsx:41-44 | A loaded split by amounts with distinct participants shows each participant's own amount. |
| ExpenseForm.EditRoundTrip | components/AddExpenseModal.tsx:26-124 | Loading a valid equal or by-amount expense and submitting it unchanged saves, under its own id, an expense with the same fields and participants; for a split by amounts each participant keeps its amount, a missing one as 0. The details are rebuilt, so fields the split type does not use are dropped. |
| ExpenseForm.ResetThenSubmit | components/AddExpenseModal.tsx:55-99 | A reset form with a description and a positive amount submits an equal split among all friends, paid by the first. |
| Tasks.OptionalField | components/TaskList.tsx:63-64 | An empty field becomes absent; any other is kept. |
| Tasks.FieldRoundTrip | components/TaskList.tsx:28-29 | Loading a field with `|| ''` and saving it with `|| undefined` restores it. |
| Tasks.SubmitGuard | components/TaskList.tsx:52 | The list changes iff the description has a non-space character and no submission is in progress. |
| Tasks.EditMeaning | components/TaskList.tsx:56-68 | Only tasks with the edited id change: they get the trimmed description and the form's assignee and deadline (`|| undefined`, so an empty field is absent), and keep their id and completion; the length is kept. |
| Tasks.AddMeaning | components/TaskList.tsx:71-78 | Adding appends exactly `Task(newId, trim(description), assignedTo || undefined, deadline || undefined, false)`, whose description is non-empty and not padded; earlier tasks are kept. |
| Tasks.ToggleMeaning | components/TaskList.tsx:84-86 | Toggling flips completion exactly on the tasks with the id, leaves every other field of every task unchanged, and keeps the length. |
| Tasks.ToggleTwice | components/TaskList.tsx:84-86 | Toggling twice restores the list. |
| Tasks.ReopenedTaskUnchanged | components/TaskList.tsx:25-64 | A task saved from the form, loaded back into it (`|| ''`) and saved again unchanged is exactly the task it was. |
| Lists.WithoutMeaning | components/TaskList.tsx:88-90 | `filter` keeps each element the predicate keeps, as often as it occurs, and nothing else. |
| Lists.WithoutAppend | components/TaskList.tsx:88-90 | `filter` distributes over concatenation, so the kept elements stay in order. |
| Tasks.DeleteMeaning | components/TaskList.tsx:88-90 | Deleting removes exactly the tasks with the id and keeps the rest in order. |
| Tasks.AssigneeName | components/TaskList.tsx:92 | A name other than 'Unassigned' is a non-empty name of a friend with the assignee id. |
| Tasks.UnassignedName | components/TaskList.tsx:92 | A missing or unknown assignee shows 'Unassigned'. |
| Friends.AddFriendMeaning | components/FriendsList.tsx:17-29 | Adding succeeds iff the name has a non-space character and no add is in progress; it appends exactly `{ id: newId, name: trim(name) }`, whose name is non-empty and not padded, and keeps the rest. |
| Friends.DeleteFriendMeaning | components/FriendsList.tsx:31-33 | Deleting removes every friend with the id, keeps the rest in order, and leaves no friend with the id. |
| Friends.WithFriends | components/PartyPage.tsx:22 | Replacing the roster keeps the party's other fields. |
| Friends.DeletedFriendLingers | components/FriendsList.tsx:31-33 | Deleting a friend keeps the party's tasks and expenses. An expense the friend paid then leaves a poisoned ledger entry, and the friend shows as 'Unknown' and 'Unassigned'. |
| Expenses.SaveEditedMeaning | components/ExpenseTracker.tsx:34-36 | Saving an edit replaces every expense with that id, keeping the id; the length and all other expenses are unchanged. |
| Expenses.SaveUnknownId | components/ExpenseTracker.tsx:36 | Saving under an id no expense has leaves the list unchanged. |
| Expenses.SaveNewMeaning | components/ExpenseTracker.tsx:37-40 | Saving a new expense appends one expense under the new id carrying every field of the form (description, amount, payer, date, split type and details); the prefix is unchanged. |
| Expenses.PayerName | components/ExpenseTracker.tsx:44 | An unknown payer shows 'Unknown'; any other name is a non-empty name of a friend with that id. |
| Expenses.SortByDate | components/ExpenseTracker.tsx:64 | The in-place sort leaves the array newest first and a permutation of what it held. |
| Parties.Find | hooks/useParties.ts:27 | None iff no party has the id; otherwise the first party with it. |
| Parties.FindAppended | hooks/useParties.ts:22 | A party appended under a new id is found under it. |
| Parties.FindAppendedOther | hooks/useParties.ts:22 | Appending does not change what other ids find. |
| Parties.ReplacedMeaning | hooks/useParties.ts:33 | An update replaces exactly the parties with the returned id and keeps the length; that id then finds the returned party, and an unknown id changes nothing. |
| Parties.RemovedMeaning | hooks/useParties.ts:39 | A deletion removes exactly the parties with the id, keeps the order of the rest, and the id then finds nothing. |
| Parties.PartyStore.constructor | hooks/useParties.ts:6-7 | The store starts empty and loading. |
| Parties.PartyStore.FetchParties | hooks/useParties.ts:9-14 | A successful load replaces the list and ends loading; a failed one leaves the list. |
| Parties.PartyStore.AddParty | hooks/useParties.ts:20-24 | The created party is appended and returned; a failed call leaves the list unchanged. |
| Parties.PartyStore.GetPartyById | hooks/useParties.ts:26-28 | None iff no party has the id; otherwise the first party in the list with that id. |
| Parties.PartyStore.UpdateParty | hooks/useParties.ts:31-35 | Parties with the returned party's id are replaced by it, the length is kept, and a failed call changes nothing. |
| Parties.PartyStore.DeleteParty | hooks/useParties.ts:37-40 | Once the call succeeds, every party with the id is removed and the id finds nothing; a failed call changes nothing. |

## Left out

**Not modelled at all:**

- Rendering, animation, modals and tabs: `App.tsx`, `components/HomePage.tsx`,
  `components/AddPartyModal.tsx`, the page shell of `components/PartyPage.tsx`, and the
  JSX of every modelled component. These are UI.
- Back-end traffic: `services/api.ts` and the server under `server/` are HTTP, storage
  and database code. Each call appears only as its result, passed as a parameter.
- `handleCustomSplitChange`, and every `toFixed` and `parseFloat`. These parse and format
  text as floating point, and the model has no IEEE arithmetic or rounding.
- When the task list's edit-load effect runs, its form clearing, and the expense form's
  closing after a save. These only move values between the form fields and React state;
  the values the edit-load puts in the task form are `Tasks.LoadedForm`.

**Modelled, with a gap:**

- The NaN of an unknown id is modelled as a `Poisoned` entry. NaN arithmetic elsewhere,
  such as a NaN amount or an invalid date, is not modelled.
- The `isSubmitting` and `isAdding` flags are modelled as booleans read at submission
  time. Interleavings of asynchronous calls, and `setParties(prev => ...)` running on a
  list that changed in the meantime, are not modelled.
- A date is turned into a time by an abstract `time: string -> int` parameter
  (`new Date(d).getTime()`). An unparsable date, which the source turns into NaN, is
  outside the model.
- Split by percentage or by shares: the expense form builds no split details for these
  two split types, because its source has no branch for them. This is modelled as
  written (`ExpenseForm.SavedDetails`, `ExpenseForm.SavedExpenseInLedger`): such an
  expense only credits its payer.
- Totals.SortByAmount: states the order and the permutation but not stability.
  `Array.prototype.sort` is stable, and the order of rows with equal amounts is not
  stated.
- Expenses.SortByDate: states newest first and a permutation but not stability, for the
  same reason.
- Settlement.SettleAccounts: bounds the total paid by what is owed and what is due, but
  does not state the exact residues. Amounts are exact reals, so the source's
  floating-point residues are not represented.
- Ledger.MoneyIsConserved: holds in exact arithmetic only. In the source, `amount / n`
  rounds, so the sum can be off by rounding error.
