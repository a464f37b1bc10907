/** The finances page: levies created at the top of the list, notices for
    a levy, and the budget's totals and balance. */
module Finances {
  import opened Common
  import opened Text
  import Ids

  /** A levy on a unit. `amount` is the number `parseFloat` produced from
      the form's text, kept abstract as an integer. */
  datatype Levy = Levy(id: int, unit: string, amount: int, dueDate: string, status: string, period: string)

  datatype LevyForm = LevyForm(unit: string, amount: string, dueDate: string, period: string)

  const BlankForm: LevyForm := LevyForm("", "", "", "")

  datatype BudgetItem = BudgetItem(category: string, amount: int)

  datatype Budget = Budget(income: seq<BudgetItem>, expenses: seq<BudgetItem>)

  datatype Page = Page(levies: seq<Levy>, budget: Budget, form: LevyForm, levyDialogOpen: bool)

  datatype Step = Step(page: Page, toast: Toast)

  /** The ids of the list, through the shared `Ids.IdsOf`. */
  function IdsOf(levies: seq<Levy>): (ids: seq<int>)
    ensures |ids| == |levies|
    ensures forall i :: 0 <= i < |levies| ==> ids[i] == levies[i].id
  {
    Ids.IdsOf(levies, (x: Levy) => x.id)
  }

  predicate UniqueIds(levies: seq<Levy>) {
    Ids.Unique(IdsOf(levies))
  }

  /** The levy a submitted form creates: pending, with an id above every id
      in use and the amount read by `parseFloat`. */
  function NewLevy(levies: seq<Levy>, form: LevyForm, parseFloat: string -> int): (l: Levy)
    ensures forall i :: 0 <= i < |levies| ==> levies[i].id < l.id
    ensures |levies| > 0 ==> l.id - 1 in IdsOf(levies)
    ensures l.unit == form.unit && l.amount == parseFloat(form.amount)
    ensures l.dueDate == form.dueDate && l.period == form.period && l.status == "pending"
  {
    Levy(Ids.NextId(IdsOf(levies)), form.unit, parseFloat(form.amount), form.dueDate, "pending", form.period)
  }

  /** `handleSubmitLevy`: the new levy goes in front of the list, the form is
      cleared, the dialog closes and the toast names the levy's unit. The
      budget is untouched. */
  function SubmitLevy(p: Page, parseFloat: string -> int): (r: Step)
    ensures |r.page.levies| == |p.levies| + 1
    ensures r.page.levies[0] == NewLevy(p.levies, p.form, parseFloat)
    ensures r.page.levies[1..] == p.levies
    ensures r.page.form == BlankForm && !r.page.levyDialogOpen && r.page.budget == p.budget
    ensures r.toast.title == "Levy created" && !r.toast.destructive
    ensures Contains(r.toast.description, p.form.unit)
  {
    var l := NewLevy(p.levies, p.form, parseFloat);
    ContainsMiddle("Levy for Unit ", l.unit, " has been created.");
    Step(p.(levies := [l] + p.levies, form := BlankForm, levyDialogOpen := false),
         Info("Levy created", "Levy for Unit " + l.unit + " has been created."))
  }

  /** Creating a levy keeps ids unique. */
  lemma SubmitLevyKeepsIdsUnique(p: Page, parseFloat: string -> int)
    requires UniqueIds(p.levies)
    ensures UniqueIds(SubmitLevy(p, parseFloat).page.levies)
  {
    var r := SubmitLevy(p, parseFloat).page.levies;
    assert r == [r[0]] + p.levies;
    PrependKeepsUnique(r[0], p.levies);
  }

  /** A levy whose id exceeds every id of a list with unique ids can go in
      front of it. */
  lemma PrependKeepsUnique(l: Levy, levies: seq<Levy>)
    requires UniqueIds(levies)
    requires forall i :: 0 <= i < |levies| ==> levies[i].id < l.id
    ensures UniqueIds([l] + levies)
  {
    var ids := IdsOf([l] + levies);
    forall i, j | 0 <= i < j < |ids| ensures ids[i] != ids[j] {
      assert ids[j] == levies[j - 1].id;
      if i > 0 { assert ids[i] == levies[i - 1].id && IdsOf(levies)[i - 1] != IdsOf(levies)[j - 1]; }
    }
  }

  /** `handleGenerateNotice`: the page is left as it was; only a toast
      naming the levy's unit is raised. */
  function GenerateNotice(p: Page, levy: Levy): (r: Step)
    ensures r.page == p
    ensures r.toast.title == "Levy notice generated" && !r.toast.destructive
    ensures Contains(r.toast.description, levy.unit)
  {
    ContainsMiddle("Levy notice for Unit ", levy.unit, " has been generated and is ready for download.");
    Step(p, Info("Levy notice generated",
                 "Levy notice for Unit " + levy.unit + " has been generated and is ready for download."))
  }

  /** `handleSendNotice`: the page is left as it was; only a toast naming
      the levy's unit is raised. */
  function SendNotice(p: Page, levy: Levy): (r: Step)
    ensures r.page == p
    ensures r.toast.title == "Levy notice sent" && !r.toast.destructive
    ensures Contains(r.toast.description, levy.unit)
  {
    ContainsMiddle("Levy notice for Unit ", levy.unit, " has been sent to the owner.");
    Step(p, Info("Levy notice sent", "Levy notice for Unit " + levy.unit + " has been sent to the owner."))
  }

  /** The sum of the amounts, element by element from the back: the
      reference the totals are checked against. */
  function Sum(items: seq<BudgetItem>): int
    decreases |items|
  {
    if |items| == 0 then 0 else items[0].amount + Sum(items[1..])
  }

  /** `items.reduce((total, item) => total + item.amount, acc)`: a left fold
      from the accumulator. */
  function Reduce(items: seq<BudgetItem>, acc: int): int
    decreases |items|
  {
    if |items| == 0 then acc else Reduce(items[1..], acc + items[0].amount)
  }

  /** The left fold from `acc` is `acc` plus the sum. */
  lemma {:induction false} ReduceIsSum(items: seq<BudgetItem>, acc: int)
    ensures Reduce(items, acc) == acc + Sum(items)
    decreases |items|
  {
    if |items| > 0 {
      ReduceIsSum(items[1..], acc + items[0].amount);
    }
  }

  /** `Sum` is additive over concatenation: it does not depend on where a
      list of items is cut. */
  lemma {:induction false} SumAppend(a: seq<BudgetItem>, b: seq<BudgetItem>)
    ensures Sum(a + b) == Sum(a) + Sum(b)
    decreases |a|
  {
    if |a| == 0 {
      assert a + b == b;
    } else {
      assert (a + b)[1..] == a[1..] + b;
      SumAppend(a[1..], b);
    }
  }

  /** `calculateTotalIncome`. */
  function TotalIncome(b: Budget): (total: int)
    ensures total == Sum(b.income)
    ensures |b.income| == 0 ==> total == 0
  {
    ReduceIsSum(b.income, 0);
    Reduce(b.income, 0)
  }

  /** `calculateTotalExpenses`. */
  function TotalExpenses(b: Budget): (total: int)
    ensures total == Sum(b.expenses)
    ensures |b.expenses| == 0 ==> total == 0
  {
    ReduceIsSum(b.expenses, 0);
    Reduce(b.expenses, 0)
  }

  datatype Colour = Green | Yellow | Red

  /** The balance shown under the budget and its colour: green when income
      covers expenses, red otherwise. */
  function Balance(b: Budget): (r: (int, Colour))
    ensures r.0 + Sum(b.expenses) == Sum(b.income)
    ensures r.1 == Green <==> Sum(b.income) >= Sum(b.expenses)
    ensures r.1 in {Green, Red}
  {
    var balance := TotalIncome(b) - TotalExpenses(b);
    (balance, if balance >= 0 then Green else Red)
  }

  /** The colour of a levy's status badge. */
  function StatusColour(status: string): (c: Colour)
    ensures c == Green <==> status == "paid"
    ensures c == Red <==> status == "overdue"
    ensures c == Yellow <==> status != "paid" && status != "overdue"
  {
    if status == "paid" then Green else if status == "overdue" then Red else Yellow
  }

  /** `status.charAt(0).toUpperCase() + status.slice(1)`: the status with its
      first letter capitalised, the empty status left empty. */
  function StatusLabel(status: string): (shown: string)
    ensures |shown| == |status|
    ensures |status| > 0 ==> shown[0] == ToUpperChar(status[0]) && shown[1..] == status[1..]
  {
    if |status| == 0 then "" else [ToUpperChar(status[0])] + status[1..]
  }

  /** A status that starts with a lower-case letter is read back from its
      label by lowering the first letter. */
  lemma StatusLabelReversible(status: string)
    requires |status| > 0 && 'a' <= status[0] <= 'z'
    ensures var shown := StatusLabel(status);
      'A' <= shown[0] <= 'Z' && [ToLowerChar(shown[0])] + shown[1..] == status
  {
  }
}
