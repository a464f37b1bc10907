/** The strata roll page: the register of owners, searched, added to,
    edited and pruned in memory. */
module StrataRoll {
  import opened Common
  import opened Text
  import opened Seqs
  import Ids

  /** An owner of a unit. `entitlement` is the number `parseFloat` produced
      from the form. */
  datatype Owner = Owner(id: int, unit: string, name: string, email: string, phone: string, entitlement: int)

  /** The add/edit dialog's fields, all text. */
  datatype OwnerForm = OwnerForm(unit: string, name: string, email: string, phone: string, entitlement: string)

  const BlankForm: OwnerForm := OwnerForm("", "", "", "", "")

  /** The page's React state. `editing` is the owner whose edit dialog is
      open, `None` while adding. */
  datatype Page = Page(owners: seq<Owner>, searchTerm: string, form: OwnerForm, editing: Option<Owner>, dialogOpen: bool)

  datatype Step = Step(page: Page, toast: Option<Toast>)

  /** The ids of the list, through the shared `Ids.IdsOf`. */
  function IdsOf(owners: seq<Owner>): (ids: seq<int>)
    ensures |ids| == |owners|
    ensures forall i :: 0 <= i < |owners| ==> ids[i] == owners[i].id
  {
    Ids.IdsOf(owners, (x: Owner) => x.id)
  }

  predicate UniqueIds(owners: seq<Owner>) {
    Ids.Unique(IdsOf(owners))
  }

  /** The search: the lower-cased term occurs in the lower-cased name, unit
      or email. */
  predicate MatchesSearch(o: Owner, term: string) {
    var t := ToLower(term);
    Contains(ToLower(o.name), t) || Contains(ToLower(o.unit), t) || Contains(ToLower(o.email), t)
  }

  /** `filteredOwners`: exactly the owners matching the search, in roll
      order. */
  function FilteredOwners(owners: seq<Owner>, term: string): (r: seq<Owner>)
    ensures forall i :: 0 <= i < |r| ==> r[i] in owners && MatchesSearch(r[i], term)
    ensures forall i :: 0 <= i < |owners| && MatchesSearch(owners[i], term) ==> owners[i] in r
    ensures forall i :: 0 <= i < |owners| ==>
      multiset(r)[owners[i]] == if MatchesSearch(owners[i], term) then multiset(owners)[owners[i]] else 0
    ensures IsSubsequence(r, owners)
  {
    Filter(owners, (o: Owner) => MatchesSearch(o, term))
  }

  /** An empty search term lists the whole roll. */
  lemma EmptySearchListsAll(owners: seq<Owner>)
    ensures FilteredOwners(owners, "") == owners
  {
    forall i | 0 <= i < |owners| ensures MatchesSearch(owners[i], "") {
      ContainsEmpty(ToLower(owners[i].name));
    }
    FilterKeepsAll(owners, (o: Owner) => MatchesSearch(o, ""));
  }

  /** The owner a submitted form describes, under id `id`. */
  function FromForm(id: int, form: OwnerForm, parseFloat: string -> int): Owner {
    Owner(id, form.unit, form.name, form.email, form.phone, parseFloat(form.entitlement))
  }

  /** The edit branch of `handleSubmit`: every owner with the edited id takes
      the form's fields and keeps its id; every other owner is untouched. */
  function UpdateOwner(owners: seq<Owner>, id: int, form: OwnerForm, parseFloat: string -> int): (r: seq<Owner>)
    ensures |r| == |owners|
    ensures forall i :: 0 <= i < |owners| ==> r[i].id == owners[i].id
    ensures forall i :: 0 <= i < |owners| && owners[i].id == id ==> r[i] == FromForm(id, form, parseFloat)
    ensures forall i :: 0 <= i < |owners| && owners[i].id != id ==> r[i] == owners[i]
  {
    Replace(owners, (o: Owner) => o.id == id, (o: Owner) => FromForm(o.id, form, parseFloat))
  }

  /** The add branch of `handleSubmit`: the roll grows by one owner at the
      end, built from the form under an id above every id in use. */
  function AddOwner(owners: seq<Owner>, form: OwnerForm, parseFloat: string -> int): (r: seq<Owner>)
    ensures |r| == |owners| + 1 && r[..|owners|] == owners
    ensures r[|owners|] == FromForm(r[|owners|].id, form, parseFloat)
    ensures forall i :: 0 <= i < |owners| ==> owners[i].id < r[|owners|].id
    ensures |owners| > 0 ==> r[|owners|].id - 1 in IdsOf(owners)
  {
    owners + [FromForm(Ids.NextId(IdsOf(owners)), form, parseFloat)]
  }

  /** `handleSubmit`: edits when an owner is being edited, adds otherwise;
      then the form is cleared, edit mode left and the dialog closed. */
  function Submit(p: Page, parseFloat: string -> int): (r: Step)
    ensures r.page.form == BlankForm && r.page.editing == None && !r.page.dialogOpen
    ensures r.page.searchTerm == p.searchTerm
    ensures p.editing.Some? ==> r.page.owners == UpdateOwner(p.owners, p.editing.value.id, p.form, parseFloat)
    ensures p.editing.None? ==> r.page.owners == AddOwner(p.owners, p.form, parseFloat)
    ensures r.toast.Some? && !r.toast.value.destructive
    ensures r.toast.Some? ==> r.toast.value.title == (if p.editing.Some? then "Owner updated" else "Owner added")
    ensures r.toast.Some? ==> Contains(r.toast.value.description, p.form.name)
  {
    ContainsPrefix(p.form.name, " has been updated successfully.");
    ContainsPrefix(p.form.name, " has been added to the strata roll.");
    var owners := if p.editing.Some? then UpdateOwner(p.owners, p.editing.value.id, p.form, parseFloat)
                  else AddOwner(p.owners, p.form, parseFloat);
    var toast := if p.editing.Some? then Info("Owner updated", p.form.name + " has been updated successfully.")
                 else Info("Owner added", p.form.name + " has been added to the strata roll.");
    Step(p.(owners := owners, form := BlankForm, editing := None, dialogOpen := false), Some(toast))
  }

  /** `handleEdit`: the form receives copies of the owner's fields, the
      entitlement rendered by `toString`, and the dialog opens in edit
      mode. The roll is not touched. */
  function Edit(p: Page, o: Owner, toString: int -> string): (r: Page)
    ensures r.owners == p.owners && r.searchTerm == p.searchTerm
    ensures r.editing == Some(o) && r.dialogOpen
    ensures r.form.unit == o.unit && r.form.name == o.name && r.form.email == o.email && r.form.phone == o.phone
    ensures r.form.entitlement == toString(o.entitlement)
  {
    p.(editing := Some(o),
       form := OwnerForm(o.unit, o.name, o.email, o.phone, toString(o.entitlement)),
       dialogOpen := true)
  }

  /** `owners.filter(owner => owner.id !== id)`: exactly the owners with a
      different id, in roll order. */
  function RemoveOwner(owners: seq<Owner>, id: int): (r: seq<Owner>)
    ensures forall i :: 0 <= i < |r| ==> r[i] in owners && r[i].id != id
    ensures forall i :: 0 <= i < |owners| && owners[i].id != id ==> owners[i] in r
    ensures forall i :: 0 <= i < |owners| ==>
      multiset(r)[owners[i]] == if owners[i].id != id then multiset(owners)[owners[i]] else 0
    ensures IsSubsequence(r, owners)
  {
    Filter(owners, (o: Owner) => o.id != id)
  }

  /** The name the toast of `handleDelete` shows: the first owner with the
      id, or JavaScript's `undefined` when there is none. */
  function DeletedName(owners: seq<Owner>, id: int): string {
    match Find(owners, (o: Owner) => o.id == id)
    case Some(o) => o.name
    case None => "undefined"
  }

  /** `handleDelete`, with the answer to `confirm` as an input: declining
      changes nothing; confirming removes exactly the owners with the id and
      leaves the rest of the page as it was. */
  function Delete(p: Page, id: int, confirmed: bool): (r: Step)
    ensures !confirmed ==> r == Step(p, None)
    ensures confirmed ==> r.page == p.(owners := RemoveOwner(p.owners, id))
    ensures confirmed ==> r.toast.Some? && !r.toast.value.destructive
    ensures confirmed && r.toast.Some? ==> r.toast.value.title == "Owner removed"
    ensures confirmed && r.toast.Some? ==> Contains(r.toast.value.description, DeletedName(p.owners, id))
  {
    if !confirmed then Step(p, None)
    else
      var name := DeletedName(p.owners, id);
      ContainsPrefix(name, " has been removed from the strata roll.");
      Step(p.(owners := RemoveOwner(p.owners, id)),
           Some(Info("Owner removed", name + " has been removed from the strata roll.")))
  }

  /** Adding keeps ids unique. */
  lemma AddKeepsIdsUnique(owners: seq<Owner>, form: OwnerForm, parseFloat: string -> int)
    requires UniqueIds(owners)
    ensures UniqueIds(AddOwner(owners, form, parseFloat))
  {
    var r := AddOwner(owners, form, parseFloat);
    Ids.NextIdKeepsUnique(IdsOf(owners));
    assert IdsOf(r) == IdsOf(owners) + [Ids.NextId(IdsOf(owners))];
  }

  /** Editing keeps every id where it was. */
  lemma UpdateKeepsIds(owners: seq<Owner>, id: int, form: OwnerForm, parseFloat: string -> int)
    ensures IdsOf(UpdateOwner(owners, id, form, parseFloat)) == IdsOf(owners)
  {
  }

  /** Removing keeps ids unique. */
  lemma {:induction false} RemoveKeepsIdsUnique(owners: seq<Owner>, id: int)
    requires UniqueIds(owners)
    ensures UniqueIds(RemoveOwner(owners, id))
    decreases |owners|
  {
    if |owners| > 0 {
      var tail := owners[1..];
      TailKeepsUnique(owners);
      RemoveKeepsIdsUnique(tail, id);
      var rest := RemoveOwner(tail, id);
      if owners[0].id != id {
        assert RemoveOwner(owners, id) == [owners[0]] + rest;
        assert forall j :: 0 <= j < |rest| ==> rest[j].id != owners[0].id by {
          HeadIdNotInTail(owners);
        }
        ConsKeepsUnique(owners[0], rest);
      } else {
        assert RemoveOwner(owners, id) == rest;
      }
    }
  }

  lemma TailKeepsUnique(owners: seq<Owner>)
    requires UniqueIds(owners) && |owners| > 0
    ensures UniqueIds(owners[1..])
  {
    assert IdsOf(owners[1..]) == IdsOf(owners)[1..];
  }

  /** In a roll with unique ids, the first owner's id occurs nowhere else. */
  lemma HeadIdNotInTail(owners: seq<Owner>)
    requires UniqueIds(owners) && |owners| > 0
    ensures forall o :: o in owners[1..] ==> o.id != owners[0].id
  {
    forall o | o in owners[1..] ensures o.id != owners[0].id {
      var k :| 0 <= k < |owners[1..]| && owners[1..][k] == o;
      assert IdsOf(owners)[k + 1] == o.id;
    }
  }

  lemma ConsKeepsUnique(x: Owner, rest: seq<Owner>)
    requires UniqueIds(rest)
    requires forall j :: 0 <= j < |rest| ==> rest[j].id != x.id
    ensures UniqueIds([x] + rest)
  {
    var ids := IdsOf([x] + rest);
    forall i, j | 0 <= i < j < |ids| ensures ids[i] != ids[j] {
      if i > 0 { assert ids[i] == IdsOf(rest)[i - 1] && ids[j] == IdsOf(rest)[j - 1]; }
      else { assert ids[j] == rest[j - 1].id; }
    }
  }

  /** Removing twice removes no more than removing once. */
  lemma RemoveIdempotent(owners: seq<Owner>, id: int)
    ensures RemoveOwner(RemoveOwner(owners, id), id) == RemoveOwner(owners, id)
  {
    FilterIdempotent(owners, (o: Owner) => o.id != id);
  }

  /** Opening an owner for edit and saving without touching the form leaves
      the roll as it was, provided ids are unique and `parseFloat` reads back
      what `toString` wrote. */
  lemma EditThenSaveChangesNothing(p: Page, i: int, toString: int -> string, parseFloat: string -> int)
    requires UniqueIds(p.owners) && 0 <= i < |p.owners|
    requires parseFloat(toString(p.owners[i].entitlement)) == p.owners[i].entitlement
    ensures Submit(Edit(p, p.owners[i], toString), parseFloat).page.owners == p.owners
  {
    var o := p.owners[i];
    var r := Submit(Edit(p, o, toString), parseFloat).page.owners;
    forall j | 0 <= j < |p.owners| ensures r[j] == p.owners[j] {
      if p.owners[j].id == o.id {
        assert IdsOf(p.owners)[j] == IdsOf(p.owners)[i];
        assert j == i;
      }
    }
  }
}
