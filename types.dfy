/** The records of a party: its members (friends), tasks and expenses, and the two
    derived records the balance view shows. Money is a `real`; ids and dates are strings. */
module Types {
  import opened Wrappers
  import opened Lists

  datatype Friend = Friend(id: string, name: string)

  datatype Task = Task(
    id: string,
    description: string,
    assignedTo: Option<string>,  // a friend id
    deadline: Option<string>,
    completed: bool)

  /** How an expense is divided among its participants. */
  datatype SplitType = Equally | ByAmount | ByPercentage | ByShares

  /** One participant of an expense; which optional field matters depends on the
      expense's split type. */
  datatype SplitDetail = SplitDetail(
    friendId: string,
    amount: Option<real>,
    percentage: Option<real>,
    shares: Option<real>)

  datatype Expense = Expense(
    id: string,
    description: string,
    amount: real,
    paidById: string,  // a friend id
    date: string,
    splitType: SplitType,
    splitBetween: seq<SplitDetail>)

  /** What the expense form hands over (`Omit<Expense, 'id'> | Expense`): the fields of an
      expense, with an id only when an existing expense was edited. */
  datatype ExpenseInput = ExpenseInput(
    id: Option<string>,
    description: string,
    amount: real,
    paidById: string,
    date: string,
    splitType: SplitType,
    splitBetween: seq<SplitDetail>)
  {
    /** The expense these fields make under the given id (`{ ...expenseData, id }`). */
    function WithId(newId: string): Expense
    {
      Expense(newId, description, amount, paidById, date, splitType, splitBetween)
    }
  }

  datatype Party = Party(
    id: string,
    name: string,
    date: string,
    friends: seq<Friend>,
    tasks: seq<Task>,
    expenses: seq<Expense>)

  /** One line of the per-friend totals view. */
  datatype Balance = Balance(friendId: string, name: string, amount: real)

  /** One settlement payment, between friend names. */
  datatype SimplifiedDebt = SimplifiedDebt(from: string, to: string, amount: real)

  /** The first friend with the given id, if any (`friends.find(f => f.id === id)`). */
  function FindFriend(friends: seq<Friend>, id: string): (r: Option<Friend>)
    ensures r.None? <==> forall i | 0 <= i < |friends| :: friends[i].id != id
    ensures r.Some? ==> exists i | 0 <= i < |friends| ::
      friends[i] == r.value && r.value.id == id && forall j | 0 <= j < i :: friends[j].id != id
  {
    FindFirst(friends, (f: Friend) => f.id == id)
  }

  /** `friends.find(f => f.id === id)?.name || fallback`: the name of the first friend with
      that id, or `fallback` when there is no such friend or its name is empty. */
  function DisplayName(friends: seq<Friend>, id: string, fallback: string): (r: string)
    ensures r == fallback || r != ""
    ensures r != fallback ==> exists i | 0 <= i < |friends| :: friends[i].id == id && friends[i].name == r
    ensures (forall i | 0 <= i < |friends| :: friends[i].id != id) ==> r == fallback
    ensures forall i | 0 <= i < |friends| ::
      friends[i].id == id && (forall j | 0 <= j < i :: friends[j].id != id) && friends[i].name != "" ==>
      r == friends[i].name
    ensures forall i | 0 <= i < |friends| ::
      friends[i].id == id && (forall j | 0 <= j < i :: friends[j].id != id) && friends[i].name == "" ==>
      r == fallback
  {
    match FindFriend(friends, id)
    case Some(f) => if f.name == "" then fallback else f.name
    case None => fallback
  }

  /** The ids of the expense's participants, in order (`splitBetween.map(d => d.friendId)`). */
  function Participants(details: seq<SplitDetail>): (r: seq<string>)
    ensures |r| == |details| && forall i | 0 <= i < |details| :: r[i] == details[i].friendId
  {
    seq(|details|, i requires 0 <= i < |details| => details[i].friendId)
  }
}
