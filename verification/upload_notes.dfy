/** The note upload form (`components/UploadNotes.jsx`): tag entry, the ordered field
    checks, the guards in front of the submission and the record it posts. */
module UploadNotes {
  import opened Wrappers
  import opened Entities
  import opened Text

  /** The form as typed; the price stays text until it is submitted. */
  datatype Form = Form(
    title: string, description: string, subject: string, price: string,
    fileUrl: string, previewUrl: string, thumbnailUrl: string, tags: seq<string>)

  // ---------------------------------------------------------------------------
  // Tags

  /** `value.split(',').map(tag => tag.trim())`: the i-th tag is the i-th comma-free piece
      of the text, trimmed, and the untrimmed pieces join back to the text. */
  function Tags(value: string): (tags: seq<string>)
    ensures |tags| == Count(value, ',') + 1
    ensures forall i :: 0 <= i < |tags| ==> Trim(tags[i]) == tags[i]
    ensures var parts := Split(value, ',');
      Join(parts, ',') == value && |parts| == |tags|
      && forall i :: 0 <= i < |tags| ==> ',' !in parts[i] && tags[i] == Trim(parts[i])
  {
    var parts := Split(value, ',');
    JoinSplit(value, ',');
    var tags := seq(|parts|, i requires 0 <= i < |parts| => Trim(parts[i]));
    forall i | 0 <= i < |tags| ensures Trim(tags[i]) == tags[i] {
      TrimIdempotent(parts[i]);
    }
    tags
  }

  /** `handleTagChange`: only the tags change. */
  function TagChange(f: Form, value: string): (r: Form)
    ensures r.tags == Tags(value)
    ensures r.(tags := f.tags) == f
  {
    f.(tags := Tags(value))
  }

  /** An empty field gives a single empty tag, not an empty list. */
  lemma EmptyTagInput()
    ensures Tags("") == [""]
  {
  }

  /** Tags typed without white space join back into the text they came from. */
  lemma TagsRoundTrip(value: string)
    requires forall i :: 0 <= i < |value| ==> !IsSpace(value[i])
    ensures Join(Tags(value), ',') == value
  {
    var parts := Split(value, ',');
    JoinSplit(value, ',');
    forall i | 0 <= i < |parts| ensures Trim(parts[i]) == parts[i] {
      forall k | 0 <= k < |parts[i]| ensures !IsSpace(parts[i][k]) {
        JoinHoldsParts(parts, ',', i, k);
      }
      TrimNoSpace(parts[i]);
    }
    assert Tags(value) == parts;
  }

  // ---------------------------------------------------------------------------
  // Validation

  /** The fields `validateForm` checks, in the order it checks them. */
  datatype Field = Title | Description | Subject | Price | FileUrl | ThumbnailUrl

  const CheckOrder: seq<Field> := [Title, Description, Subject, Price, FileUrl, ThumbnailUrl]

  /** Whether one field passes: the subject must be non-empty, the others non-blank. */
  predicate FieldOk(f: Form, field: Field) {
    match field
    case Title => Trim(f.title) != ""
    case Description => Trim(f.description) != ""
    case Subject => f.subject != ""
    case Price => Trim(f.price) != ""
    case FileUrl => Trim(f.fileUrl) != ""
    case ThumbnailUrl => Trim(f.thumbnailUrl) != ""
  }

  function Position(field: Field): (k: nat)
    ensures k < |CheckOrder| && CheckOrder[k] == field
  {
    match field
    case Title => 0
    case Description => 1
    case Subject => 2
    case Price => 3
    case FileUrl => 4
    case ThumbnailUrl => 5
  }

  /** The message the form shows for a failing field. */
  function Message(field: Field): string {
    match field
    case Title => "Please enter a title"
    case Description => "Please enter a description"
    case Subject => "Please select a subject"
    case Price => "Please enter a price"
    case FileUrl => "Please enter a file URL"
    case ThumbnailUrl => "Please enter a thumbnail URL"
  }

  /** The field `validateForm` reports, or `None` when it returns true. */
  function FirstInvalid(f: Form): (r: Option<Field>)
    ensures r.None? <==> forall field :: FieldOk(f, field)
    ensures r.Some? ==> !FieldOk(f, r.value)
    ensures r.Some? ==> forall field :: Position(field) < Position(r.value) ==> FieldOk(f, field)
  {
    var r :=
      if !FieldOk(f, Title) then Some(Title)
      else if !FieldOk(f, Description) then Some(Description)
      else if !FieldOk(f, Subject) then Some(Subject)
      else if !FieldOk(f, Price) then Some(Price)
      else if !FieldOk(f, FileUrl) then Some(FileUrl)
      else if !FieldOk(f, ThumbnailUrl) then Some(ThumbnailUrl)
      else None;
    r
  }

  /** `validateForm()`: true exactly when no text field is blank and a subject is chosen. */
  function ValidateForm(f: Form): (ok: bool)
    ensures ok <==>
      !AllSpace(f.title) && !AllSpace(f.description) && f.subject != ""
      && !AllSpace(f.price) && !AllSpace(f.fileUrl) && !AllSpace(f.thumbnailUrl)
  {
    TrimEmptyIff(f.title);
    TrimEmptyIff(f.description);
    TrimEmptyIff(f.price);
    TrimEmptyIff(f.fileUrl);
    TrimEmptyIff(f.thumbnailUrl);
    FirstInvalid(f).None?
  }

  /** Only one failure is reported, and which one does not depend on the later fields:
      two forms that agree up to and including the reported field report the same one. */
  lemma FirstInvalidDependsOnEarlierFields(f: Form, g: Form)
    requires FirstInvalid(f).Some?
    requires forall field :: Position(field) <= Position(FirstInvalid(f).value) ==> (FieldOk(f, field) <==> FieldOk(g, field))
    ensures FirstInvalid(g) == FirstInvalid(f)
  {
  }

  // ---------------------------------------------------------------------------
  // Submission

  /** The record the form posts. The price is still text: `parseFloat` is not modelled. */
  datatype NoteData = NoteData(
    title: string, description: string, subject: string, priceText: string,
    fileUrl: string, previewUrl: string, thumbnailUrl: string, category: string,
    tags: seq<string>, authorEmail: string, authorName: string, authorPhoto: string,
    createdAt: string, downloads: nat, views: nat, ratings: seq<int>)

  /** `noteData`; `nowIso` is `new Date().toISOString()`. */
  function BuildNote(f: Form, category: string, u: User, nowIso: string): (n: NoteData)
    ensures n.title == f.title && n.description == f.description && n.subject == f.subject
    ensures n.fileUrl == f.fileUrl && n.thumbnailUrl == f.thumbnailUrl && n.tags == f.tags
    ensures n.category == category && n.authorEmail == u.email && n.createdAt == nowIso
    ensures n.previewUrl == (if f.previewUrl != "" then f.previewUrl else f.thumbnailUrl)
    ensures n.authorName == (if u.displayName != "" then u.displayName else "Anonymous")
    ensures n.authorPhoto == u.photoURL
    ensures n.downloads == 0 && n.views == 0 && n.ratings == []
  {
    NoteData(f.title, f.description, f.subject, f.price, f.fileUrl,
      OrElse(f.previewUrl, f.thumbnailUrl), f.thumbnailUrl, category, f.tags,
      u.email, OrElse(u.displayName, "Anonymous"), OrElse(u.photoURL, ""),
      nowIso, 0, 0, [])
  }

  const ConnectedStatus: string := "connected"

  /** What `handleSubmit` does before any request is made. */
  datatype SubmitOutcome = ApiNotConnected | NotSignedIn | Invalid(field: Field) | Post(note: NoteData)

  /** `handleSubmit`: the connection check, then the sign-in check, then validation. */
  function Submit(apiStatus: string, user: Option<User>, f: Form, category: string, nowIso: string): (r: SubmitOutcome)
    ensures r == ApiNotConnected <==> apiStatus != ConnectedStatus
    ensures r == NotSignedIn <==> apiStatus == ConnectedStatus && (user.None? || user.value.email == "")
    ensures r.Invalid? <==> apiStatus == ConnectedStatus && user.Some? && user.value.email != "" && !ValidateForm(f)
    ensures r.Invalid? ==> Some(r.field) == FirstInvalid(f)
    ensures r.Post? ==> r.note == BuildNote(f, category, user.value, nowIso)
  {
    if apiStatus != ConnectedStatus then ApiNotConnected
    else if user.None? || user.value.email == "" then NotSignedIn
    else match FirstInvalid(f)
      case Some(field) => Invalid(field)
      case None => Post(BuildNote(f, category, user.value, nowIso))
  }

  /** Every posted note has a non-blank title, description, price, file and thumbnail, a
      subject, a preview address and a signed-in author's email. */
  lemma PostedNotesAreComplete(apiStatus: string, user: Option<User>, f: Form, category: string, nowIso: string)
    ensures Submit(apiStatus, user, f, category, nowIso).Post? ==>
      var n := Submit(apiStatus, user, f, category, nowIso).note;
      !AllSpace(n.title) && !AllSpace(n.description) && n.subject != "" && !AllSpace(n.priceText)
      && !AllSpace(n.fileUrl) && !AllSpace(n.thumbnailUrl) && n.previewUrl != "" && n.authorEmail != ""
  {
    if Submit(apiStatus, user, f, category, nowIso).Post? {
      assert ValidateForm(f);
      assert !AllSpace(f.thumbnailUrl) ==> f.thumbnailUrl != "";
    }
  }
}
