/** The maintenance page: requests are submitted at the top of the list,
    their status is updated through a dialog, and tabs filter by status. */
module Maintenance {
  import opened Common
  import opened Seqs
  import opened Text
  import Ids

  /** A maintenance request. Status and priority are free strings; the page
      offers "pending", "in-progress", "scheduled", "completed" and "low",
      "medium", "high". */
  datatype Request = Request(
    id: int, title: string, description: string, submittedBy: string,
    unit: string, date: string, status: string, priority: string)

  datatype RequestForm = RequestForm(title: string, description: string, unit: string, priority: string)

  const BlankForm: RequestForm := RequestForm("", "", "", "medium")

  /** The page's React state. `selected` and `newStatus` belong to the
      update-status dialog. */
  datatype Page = Page(
    requests: seq<Request>, form: RequestForm, newDialogOpen: bool,
    statusDialogOpen: bool, selected: Option<Request>, newStatus: string)

  datatype Step = Step(page: Page, toast: Option<Toast>)

  /** The ids of the list, through the shared `Ids.IdsOf`. */
  function IdsOf(requests: seq<Request>): (ids: seq<int>)
    ensures |ids| == |requests|
    ensures forall i :: 0 <= i < |requests| ==> ids[i] == requests[i].id
  {
    Ids.IdsOf(requests, (x: Request) => x.id)
  }

  predicate UniqueIds(requests: seq<Request>) {
    Ids.Unique(IdsOf(requests))
  }

  /** The request a submitted form creates on date `today`: pending, by the
      demo user, under an id above every id in use. */
  function NewRequest(requests: seq<Request>, form: RequestForm, today: string): (q: Request)
    ensures forall i :: 0 <= i < |requests| ==> requests[i].id < q.id
    ensures |requests| > 0 ==> q.id - 1 in IdsOf(requests)
    ensures q.title == form.title && q.description == form.description
    ensures q.unit == form.unit && q.priority == form.priority
    ensures q.status == "pending" && q.submittedBy == DemoUser && q.date == today
  {
    Request(Ids.NextId(IdsOf(requests)), form.title, form.description, DemoUser,
            form.unit, today, "pending", form.priority)
  }

  /** `handleSubmit`: the new request goes in front of the list, the form is
      reset with priority "medium", and the new-request dialog closes. The
      update-status dialog's state is untouched. */
  function Submit(p: Page, today: string): (r: Step)
    ensures |r.page.requests| == |p.requests| + 1
    ensures r.page.requests[0] == NewRequest(p.requests, p.form, today)
    ensures r.page.requests[1..] == p.requests
    ensures r.page.form == BlankForm && !r.page.newDialogOpen
    ensures r.page.statusDialogOpen == p.statusDialogOpen
    ensures r.page.selected == p.selected && r.page.newStatus == p.newStatus
    ensures r.toast.Some? && !r.toast.value.destructive
    ensures r.toast.Some? ==> r.toast.value.title == "Request submitted"
  {
    var q := NewRequest(p.requests, p.form, today);
    Step(p.(requests := [q] + p.requests, form := BlankForm, newDialogOpen := false),
         Some(Info("Request submitted", "Your maintenance request has been submitted successfully.")))
  }

  /** `handleSelectChange`: the priority chosen for the new request. */
  function HandleSelectChange(p: Page, value: string): (r: Page)
    ensures r.form.priority == value
    ensures r.form.title == p.form.title && r.form.description == p.form.description && r.form.unit == p.form.unit
    ensures r.requests == p.requests && r.newDialogOpen == p.newDialogOpen
    ensures r.statusDialogOpen == p.statusDialogOpen && r.selected == p.selected && r.newStatus == p.newStatus
  {
    p.(form := p.form.(priority := value))
  }

  /** `openUpdateStatusDialog`: selects the request and pre-fills the new
      status with its current one. */
  function OpenUpdateStatusDialog(p: Page, q: Request): (r: Page)
    ensures r.selected == Some(q) && r.newStatus == q.status && r.statusDialogOpen
    ensures r.requests == p.requests && r.form == p.form && r.newDialogOpen == p.newDialogOpen
  {
    p.(selected := Some(q), newStatus := q.status, statusDialogOpen := true)
  }

  /** `handleStatusChange`: the status chosen in the dialog. */
  function HandleStatusChange(p: Page, value: string): (r: Page)
    ensures r.newStatus == value
    ensures r.requests == p.requests && r.form == p.form && r.newDialogOpen == p.newDialogOpen
    ensures r.statusDialogOpen == p.statusDialogOpen && r.selected == p.selected
  {
    p.(newStatus := value)
  }

  /** `requests.map(...)` inside `handleUpdateStatus`: the status of every
      request with the id becomes `status`; nothing else changes. */
  function SetStatus(requests: seq<Request>, id: int, status: string): (r: seq<Request>)
    ensures |r| == |requests|
    ensures forall i :: 0 <= i < |requests| && requests[i].id == id ==> r[i] == requests[i].(status := status)
    ensures forall i :: 0 <= i < |requests| && requests[i].id != id ==> r[i] == requests[i]
  {
    Replace(requests, (q: Request) => q.id == id, (q: Request) => q.(status := status))
  }

  /** `handleUpdateStatus`: without a selected request or with an empty new
      status it does nothing; otherwise it sets the status of the selected
      request, closes the dialog and clears the selection and new status. */
  function UpdateStatus(p: Page): (r: Step)
    ensures p.selected.None? || p.newStatus == "" ==> r == Step(p, None)
    ensures p.selected.Some? && p.newStatus != "" ==>
      && r.page.requests == SetStatus(p.requests, p.selected.value.id, p.newStatus)
      && r.page.selected == None && r.page.newStatus == "" && !r.page.statusDialogOpen
      && r.page.form == p.form && r.page.newDialogOpen == p.newDialogOpen
      && r.toast.Some? && !r.toast.value.destructive
      && r.toast.value.title == "Status updated"
      && Contains(r.toast.value.description, p.selected.value.title)
      && Contains(r.toast.value.description, p.newStatus)
  {
    if p.selected.None? || p.newStatus == "" then Step(p, None)
    else
      var q := p.selected.value;
      var tail := "\" has been updated to " + p.newStatus + ".";
      var head := "The status of \"" + q.title + "\" has been updated to ";
      ContainsMiddle("The status of \"", q.title, tail);
      ContainsMiddle(head, p.newStatus, ".");
      assert "The status of \"" + q.title + tail == head + p.newStatus + ".";
      Step(p.(requests := SetStatus(p.requests, q.id, p.newStatus),
              statusDialogOpen := false, selected := None, newStatus := ""),
           Some(Info("Status updated",
                     "The status of \"" + q.title + "\" has been updated to " + p.newStatus + ".")))
  }

  /** Submitting keeps ids unique. */
  lemma SubmitKeepsIdsUnique(p: Page, today: string)
    requires UniqueIds(p.requests)
    ensures UniqueIds(Submit(p, today).page.requests)
  {
    var r := Submit(p, today).page.requests;
    assert r == [r[0]] + p.requests;
    PrependKeepsUnique(r[0], p.requests);
  }

  /** A request whose id exceeds every id of a list with unique ids can go
      in front of it. */
  lemma PrependKeepsUnique(q: Request, requests: seq<Request>)
    requires UniqueIds(requests)
    requires forall i :: 0 <= i < |requests| ==> requests[i].id < q.id
    ensures UniqueIds([q] + requests)
  {
    var ids := IdsOf([q] + requests);
    forall i, j | 0 <= i < j < |ids| ensures ids[i] != ids[j] {
      assert ids[j] == requests[j - 1].id;
      if i > 0 { assert ids[i] == requests[i - 1].id && IdsOf(requests)[i - 1] != IdsOf(requests)[j - 1]; }
    }
  }

  /** Choosing a non-empty status for a request of a list with unique ids
      and confirming changes that request's status and nothing else. */
  lemma OpenChooseUpdate(p: Page, i: int, status: string)
    requires UniqueIds(p.requests) && 0 <= i < |p.requests| && status != ""
    ensures var r := UpdateStatus(HandleStatusChange(OpenUpdateStatusDialog(p, p.requests[i]), status)).page;
      && |r.requests| == |p.requests|
      && r.requests[i] == p.requests[i].(status := status)
      && (forall j :: 0 <= j < |p.requests| && j != i ==> r.requests[j] == p.requests[j])
      && IdsOf(r.requests) == IdsOf(p.requests)
  {
    var r := UpdateStatus(HandleStatusChange(OpenUpdateStatusDialog(p, p.requests[i]), status)).page;
    forall j | 0 <= j < |p.requests| && j != i ensures r.requests[j] == p.requests[j] {
      assert IdsOf(p.requests)[j] != IdsOf(p.requests)[i];
    }
  }

  /** The status tabs. */
  datatype Tab = AllTab | PendingTab | InProgressTab | CompletedTab

  /** Which requests a tab lists: every request in "all", and by status in
      the others, "in-progress" also listing scheduled requests. */
  predicate InTab(tab: Tab, q: Request) {
    match tab
    case AllTab => true
    case PendingTab => q.status == "pending"
    case InProgressTab => q.status == "in-progress" || q.status == "scheduled"
    case CompletedTab => q.status == "completed"
  }

  /** The requests a tab lists, in list order. */
  function TabRequests(requests: seq<Request>, tab: Tab): (r: seq<Request>)
    ensures forall i :: 0 <= i < |r| ==> r[i] in requests && InTab(tab, r[i])
    ensures forall i :: 0 <= i < |requests| && InTab(tab, requests[i]) ==> requests[i] in r
    ensures forall i :: 0 <= i < |requests| ==>
      multiset(r)[requests[i]] == if InTab(tab, requests[i]) then multiset(requests)[requests[i]] else 0
    ensures IsSubsequence(r, requests)
  {
    if tab == AllTab then
      SubsequenceOfItself(requests);
      requests
    else Filter(requests, (q: Request) => InTab(tab, q))
  }

  /** Whether a tab's card offers "Update Status": the "all" tab only for
      requests not completed, the pending and in-progress tabs always, the
      completed tab never. */
  predicate OffersUpdate(tab: Tab, q: Request) {
    match tab
    case AllTab => q.status != "completed"
    case PendingTab => true
    case InProgressTab => true
    case CompletedTab => false
  }

  /** Whatever tab a request is listed in, its card offers an update
      exactly when the request is not completed. */
  lemma UpdateOfferedIffNotCompleted(tab: Tab, q: Request)
    requires InTab(tab, q)
    ensures OffersUpdate(tab, q) <==> q.status != "completed"
  {
  }

  predicate KnownStatus(q: Request) {
    q.status in {"pending", "in-progress", "scheduled", "completed"}
  }

  /** When every status is one of the four the page offers, the pending,
      in-progress and completed tabs split the list between them. */
  lemma {:induction false} TabsPartition(requests: seq<Request>)
    requires forall i :: 0 <= i < |requests| ==> KnownStatus(requests[i])
    ensures |TabRequests(requests, PendingTab)| + |TabRequests(requests, InProgressTab)|
          + |TabRequests(requests, CompletedTab)| == |requests|
    decreases |requests|
  {
    if |requests| > 0 {
      TabsPartition(requests[1..]);
      TabStep(requests, PendingTab);
      TabStep(requests, InProgressTab);
      TabStep(requests, CompletedTab);
      ExactlyOneStatusTab(requests[0]);
    }
  }

  /** A request with a known status is in exactly one of the three status
      tabs. */
  lemma ExactlyOneStatusTab(q: Request)
    requires KnownStatus(q)
    ensures (if InTab(PendingTab, q) then 1 else 0) + (if InTab(InProgressTab, q) then 1 else 0)
          + (if InTab(CompletedTab, q) then 1 else 0) == 1
  {
    var s := q.status;
    if s == "pending" {
      assert |s| == 7;
    } else if s == "completed" {
      assert s[0] == 'c';
    } else {
      assert s[0] != 'c' && |s| != 7;
    }
  }

  /** A status tab lists the first request, or not, in front of what it
      lists of the rest. */
  lemma TabStep(requests: seq<Request>, tab: Tab)
    requires |requests| > 0 && tab != AllTab
    ensures |TabRequests(requests, tab)|
         == |TabRequests(requests[1..], tab)| + (if InTab(tab, requests[0]) then 1 else 0)
  {
  }

  /** A new request is pending, so it heads the pending tab. */
  lemma SubmittedHeadsPendingTab(p: Page, today: string)
    ensures var r := Submit(p, today).page.requests;
      TabRequests(r, PendingTab) == [r[0]] + TabRequests(p.requests, PendingTab)
  {
    var r := Submit(p, today).page.requests;
    assert r == [r[0]] + p.requests;
  }
}
