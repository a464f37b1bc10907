/** The documents page: uploads go to the top of the list and category
    buttons filter the list. */
module Documents {
  import opened Common
  import opened Text
  import opened Seqs
  import Ids

  /** The browser `File` the form holds; only its name is read. */
  datatype File = File(name: string)

  datatype Document = Document(
    id: int, title: string, fileName: string, fileUrl: string,
    uploadedBy: string, uploadDate: string, category: string)

  datatype DocumentForm = DocumentForm(title: string, category: string, file: Option<File>)

  const BlankForm: DocumentForm := DocumentForm("", "General", None)

  /** The page's React state. `activeCategory` is "all" or one of the
      lower-case category names of the filter buttons. */
  datatype Page = Page(documents: seq<Document>, dialogOpen: bool, form: DocumentForm, activeCategory: string)

  const AllCategories: string := "all"

  /** The categories the filter buttons select, besides "all". */
  const FilterButtons: seq<string> := ["insurance", "minutes", "financial", "legal"]

  datatype Step = Step(page: Page, toast: Toast)

  /** The ids of the list, through the shared `Ids.IdsOf`. */
  function IdsOf(documents: seq<Document>): (ids: seq<int>)
    ensures |ids| == |documents|
    ensures forall i :: 0 <= i < |documents| ==> ids[i] == documents[i].id
  {
    Ids.IdsOf(documents, (x: Document) => x.id)
  }

  predicate UniqueIds(documents: seq<Document>) {
    Ids.Unique(IdsOf(documents))
  }

  /** `handleInputChange` for the one text input, the title. */
  function HandleTitleChange(p: Page, value: string): (r: Page)
    ensures r.form.title == value
    ensures r.form.category == p.form.category && r.form.file == p.form.file
    ensures r.documents == p.documents && r.dialogOpen == p.dialogOpen && r.activeCategory == p.activeCategory
  {
    p.(form := p.form.(title := value))
  }

  /** `handleFileChange`: the first chosen file replaces the form's file; an
      empty choice leaves the form as it was. */
  function HandleFileChange(p: Page, files: seq<File>): (r: Page)
    ensures |files| > 0 ==> r.form.file == Some(files[0])
    ensures |files| == 0 ==> r == p
    ensures r.form.title == p.form.title && r.form.category == p.form.category
    ensures r.documents == p.documents && r.dialogOpen == p.dialogOpen && r.activeCategory == p.activeCategory
  {
    if |files| > 0 then p.(form := p.form.(file := Some(files[0]))) else p
  }

  /** `handleSelectChange`: the category chosen for the upload. */
  function HandleSelectChange(p: Page, value: string): (r: Page)
    ensures r.form.category == value
    ensures r.form.title == p.form.title && r.form.file == p.form.file
    ensures r.documents == p.documents && r.dialogOpen == p.dialogOpen && r.activeCategory == p.activeCategory
  {
    p.(form := p.form.(category := value))
  }

  /** The document an upload of `file` creates on date `today`. */
  function NewDocument(documents: seq<Document>, form: DocumentForm, file: File, today: string): (d: Document)
    ensures forall i :: 0 <= i < |documents| ==> documents[i].id < d.id
    ensures |documents| > 0 ==> d.id - 1 in IdsOf(documents)
    ensures d.title == form.title && d.category == form.category && d.fileName == file.name
    ensures d.fileUrl == "#" && d.uploadedBy == DemoUser && d.uploadDate == today
  {
    Document(Ids.NextId(IdsOf(documents)), form.title, file.name, "#", DemoUser, today, form.category)
  }

  /** `handleSubmit`: without a file nothing changes and a destructive toast
      asks for one; with a file the new document goes in front of the list,
      the form is reset to category "General" with no file, and the dialog
      closes. The active category is kept. */
  function Submit(p: Page, today: string): (r: Step)
    ensures p.form.file.None? ==> r.page == p && r.toast == Error("Error", "Please select a file to upload")
    ensures p.form.file.Some? ==>
      && |r.page.documents| == |p.documents| + 1
      && r.page.documents[0] == NewDocument(p.documents, p.form, p.form.file.value, today)
      && r.page.documents[1..] == p.documents
      && r.page.form == BlankForm && !r.page.dialogOpen
      && r.page.activeCategory == p.activeCategory
      && r.toast.title == "Document uploaded" && !r.toast.destructive
  {
    match p.form.file
    case None => Step(p, Error("Error", "Please select a file to upload"))
    case Some(file) =>
      var d := NewDocument(p.documents, p.form, file, today);
      Step(p.(documents := [d] + p.documents, form := BlankForm, dialogOpen := false),
           Info("Document uploaded", "Your document has been successfully uploaded."))
  }

  /** Uploading keeps ids unique. */
  lemma SubmitKeepsIdsUnique(p: Page, today: string)
    requires UniqueIds(p.documents)
    ensures UniqueIds(Submit(p, today).page.documents)
  {
    if p.form.file.Some? {
      var r := Submit(p, today).page.documents;
      assert r == [r[0]] + p.documents;
      PrependKeepsUnique(r[0], p.documents);
    }
  }

  /** A document whose id exceeds every id of a list with unique ids can go
      in front of it. */
  lemma PrependKeepsUnique(d: Document, documents: seq<Document>)
    requires UniqueIds(documents)
    requires forall i :: 0 <= i < |documents| ==> documents[i].id < d.id
    ensures UniqueIds([d] + documents)
  {
    var ids := IdsOf([d] + documents);
    forall i, j | 0 <= i < j < |ids| ensures ids[i] != ids[j] {
      assert ids[j] == documents[j - 1].id;
      if i > 0 { assert ids[i] == documents[i - 1].id && IdsOf(documents)[i - 1] != IdsOf(documents)[j - 1]; }
    }
  }

  /** `handleDownload`: the page is left as it was; only a toast naming
      the file is raised. */
  function Download(p: Page, d: Document): (r: Step)
    ensures r.page == p
    ensures r.toast.title == "Download started" && !r.toast.destructive
    ensures Contains(r.toast.description, d.fileName)
  {
    ContainsMiddle("Downloading ", d.fileName, "");
    assert "Downloading " + d.fileName + "" == "Downloading " + d.fileName;
    Step(p, Info("Download started", "Downloading " + d.fileName))
  }

  /** Whether a document is in the active category, compared case-blind. */
  predicate InCategory(d: Document, active: string) {
    ToLower(d.category) == ToLower(active)
  }

  /** `filteredDocuments`: the whole list under "all", otherwise the
      documents in the active category, in list order. */
  function Filtered(documents: seq<Document>, active: string): (r: seq<Document>)
    ensures active == AllCategories ==> r == documents
    ensures active != AllCategories ==>
      && (forall i :: 0 <= i < |r| ==> r[i] in documents && InCategory(r[i], active))
      && (forall i :: 0 <= i < |documents| && InCategory(documents[i], active) ==> documents[i] in r)
      && (forall i :: 0 <= i < |documents| ==>
            multiset(r)[documents[i]] == if InCategory(documents[i], active) then multiset(documents)[documents[i]] else 0)
    ensures IsSubsequence(r, documents)
  {
    if active == AllCategories then
      SubsequenceOfItself(documents);
      documents
    else Filter(documents, (d: Document) => InCategory(d, active))
  }

  /** Whether a document is listed under the active category. */
  predicate Listed(d: Document, active: string) {
    active == AllCategories || InCategory(d, active)
  }

  /** An upload is listed first under the active category when it belongs
      there, and leaves the listing as it was when it does not. */
  lemma UploadListing(p: Page, today: string)
    requires p.form.file.Some?
    ensures var docs := Submit(p, today).page.documents;
      Filtered(docs, p.activeCategory)
        == (if Listed(docs[0], p.activeCategory) then [docs[0]] else []) + Filtered(p.documents, p.activeCategory)
  {
    var docs := Submit(p, today).page.documents;
    assert docs == [docs[0]] + p.documents;
  }

  /** A document uploaded under the default category "General" is listed
      under "all" and under none of the filter buttons. */
  lemma GeneralListedOnlyUnderAll(d: Document, active: string)
    requires d.category == "General"
    requires active == AllCategories || active in FilterButtons
    ensures Listed(d, active) <==> active == AllCategories
  {
    if active != AllCategories {
      assert ToLower(d.category)[0] == 'g';
      assert ToLower(active)[0] != 'g';
    }
  }
}
