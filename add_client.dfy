/**
 * The add-client form: its fields, the logo picker, and the decisions of
 * its submit handler. The submit uploads the picked logo (if any), inserts
 * the new row with a slug generated from the name, maps the insert's
 * errors to a message and, on success, clears the form.
 */
module AddClient {
  import opened Optional
  import opened Slug
  import opened Clients

  /** The message for a unique-constraint violation (PostgreSQL error code 23505) on insert. */
  const DUPLICATE_SLUG: string := "Já existe um cliente com este nome (slug duplicado)."
  /** The text shown for a caught error without a message. */
  const ADD_FAILED: string := "Erro ao adicionar cliente"
  /** PostgreSQL's code for a unique-constraint violation. */
  const UNIQUE_VIOLATION: string := "23505"

  /** What one submit does: the row it asked the backend to insert, if it got that far, and the error it shows, if any. */
  datatype AddResult = AddResult(inserted: Option<NewClient>, error: Option<string>)

  /** The logo reference of a new client: none (the empty string) without a picked file, the upload's URL with one. */
  function NewLogo(file: Option<LogoFile>, upload: UploadOutcome): (r: LogoResolution)
    ensures file.None? ==> r == LogoUrl("")
    ensures file.Some? ==> r == UploadedLogo(upload)
  {
    if file.Some? then UploadedLogo(upload) else LogoUrl("")
  }

  /** The message shown when the insert fails: a fixed one for a duplicate slug, the error's own otherwise. */
  function InsertErrorText(code: string, message: string): (r: string)
    ensures code == UNIQUE_VIOLATION ==> r == DUPLICATE_SLUG
    ensures code != UNIQUE_VIOLATION && message != "" ==> r == message
    ensures code != UNIQUE_VIOLATION && message == "" ==> r == ADD_FAILED
  {
    if code == UNIQUE_VIOLATION then DUPLICATE_SLUG else ErrorText(message, ADD_FAILED)
  }

  /** The row inserted for the typed name and business type with logo reference `logoUrl`: its slug comes from the name. */
  function NewRow(name: string, businessType: string, logoUrl: string): (row: NewClient)
    ensures row.name == name && row.businessType == businessType && row.logoUrl == logoUrl
    ensures row.slug == GenerateSlug(name)
  {
    NewClient(name, businessType, logoUrl, GenerateSlug(name))
  }

  /**
   * The outcome of submitting `name`, `businessType` and the picked `file`
   * when the upload answers `upload` and the insert answers `insert`.
   */
  function AddSubmission(name: string, businessType: string, file: Option<LogoFile>,
                         upload: UploadOutcome, insert: WriteOutcome): (r: AddResult)
    // the insert is issued unless a picked file failed to upload
    ensures r.inserted.None? <==> file.Some? && upload.UploadFailed?
    // the row carries the typed fields and the slug generated from the name
    ensures r.inserted.Some? ==>
      var row := r.inserted.value;
      row.name == name && row.businessType == businessType && row.slug == GenerateSlug(name)
    ensures r.inserted.Some? && file.None? ==> r.inserted.value.logoUrl == ""
    ensures r.inserted.Some? && file.Some? ==> upload.Uploaded? && r.inserted.value.logoUrl == upload.publicUrl
    // it succeeds exactly when the row was inserted
    ensures r.error.None? <==> r.inserted.Some? && insert.Written?
    ensures r.inserted.None? ==> r.error == Some(ErrorText(upload.message, ADD_FAILED))
    ensures r.inserted.Some? && insert.WriteFailed? ==> r.error == Some(InsertErrorText(insert.code, insert.message))
  {
    match NewLogo(file, upload)
    case UploadError(message) => AddResult(None, Some(ErrorText(message, ADD_FAILED)))
    case LogoUrl(url) =>
      var row := NewRow(name, businessType, url);
      match insert
      case Written => AddResult(Some(row), None)
      case WriteFailed(code, message) => AddResult(Some(row), Some(InsertErrorText(code, message)))
  }

  /** The slug stored with a new row is a slug, and stable: slugifying it again gives it back. */
  lemma InsertedSlugStable(name: string, businessType: string, file: Option<LogoFile>,
                           upload: UploadOutcome, insert: WriteOutcome)
    ensures var r := AddSubmission(name, businessType, file, upload, insert);
      r.inserted.Some? ==> IsSlug(r.inserted.value.slug) && GenerateSlug(r.inserted.value.slug) == r.inserted.value.slug
  {
    GeneratedIsSlug(name);
    SlugIdempotent(name);
  }

  /** What the user has entered in the form. */
  datatype FormEntries = FormEntries(name: string, businessType: string, logoFile: Option<LogoFile>, logoPreview: Option<string>)

  /** The entries of an empty form. */
  const CLEARED := FormEntries("", "", None, None)

  class AddClientForm {
    var name: string
    var businessType: string
    var logoFile: Option<LogoFile>
    /** The preview URL of the picked logo. */
    var logoPreview: Option<string>
    var loading: bool
    var error: Option<string>

    /** A preview is shown exactly when a logo file is picked. */
    predicate Valid()
      reads this
    {
      logoFile.Some? <==> logoPreview.Some?
    }

    /** The form opens empty. */
    constructor ()
      ensures Valid()
      ensures name == "" && businessType == "" && logoFile == None && logoPreview == None
      ensures !loading && error == None
    {
      name := "";
      businessType := "";
      logoFile := None;
      logoPreview := None;
      loading := false;
      error := None;
    }

    /**
     * Picking a file replaces the logo and its preview; `objectUrl` stands
     * for the browser's preview URL of the file. An empty pick changes nothing.
     */
    method HandleFileChange(picked: Option<LogoFile>, objectUrl: string)
      requires Valid()
      modifies this
      ensures Valid()
      ensures picked.Some? ==> logoFile == picked && logoPreview == Some(objectUrl)
      ensures picked.None? ==> logoFile == old(logoFile) && logoPreview == old(logoPreview)
      ensures name == old(name) && businessType == old(businessType)
      ensures loading == old(loading) && error == old(error)
    {
      if picked.Some? {
        logoFile := picked;
        logoPreview := Some(objectUrl);
      }
    }

    /** The remove button drops the picked logo and its preview. */
    method RemoveLogo()
      modifies this
      ensures Valid()
      ensures logoFile == None && logoPreview == None
      ensures name == old(name) && businessType == old(businessType)
      ensures loading == old(loading) && error == old(error)
    {
      logoFile := None;
      logoPreview := None;
    }

    /** The values the user has entered: the typed fields, the picked logo and its preview. */
    function Entries(): (e: FormEntries)
      reads this
      ensures e.name == name && e.businessType == businessType
      ensures e.logoFile == logoFile && e.logoPreview == logoPreview
    {
      FormEntries(name, businessType, logoFile, logoPreview)
    }

    /**
     * The submit handler. `upload` and `insert` stand for the backend's
     * answers; the result is the row the insert was issued with (None when
     * the upload failed first) and the error shown (None exactly when
     * `onSuccess` ran). On success the entries are cleared; on failure they
     * are kept. Either way the form ends not loading.
     */
    method HandleSubmit(upload: UploadOutcome, insert: WriteOutcome) returns (result: AddResult)
      requires Valid()
      modifies this
      ensures Valid()
      ensures result == AddSubmission(old(name), old(businessType), old(logoFile), upload, insert)
      ensures error == result.error && !loading
      ensures Entries() == if result.error.None? then CLEARED else old(Entries())
    {
      ghost var spec := AddSubmission(name, businessType, logoFile, upload, insert);
      loading := true;
      error := None;
      var logoUrl := "";
      if logoFile.Some? {
        if upload.UploadFailed? {
          error := Some(ErrorText(upload.message, ADD_FAILED));
          loading := false;
          assert NewLogo(old(logoFile), upload) == UploadError(upload.message);
          return AddResult(None, error);
        }
        logoUrl := upload.publicUrl;
      }
      assert NewLogo(logoFile, upload) == LogoUrl(logoUrl);
      var row := NewRow(name, businessType, logoUrl);
      assert spec.inserted == Some(row);
      if insert.WriteFailed? {
        if insert.code == UNIQUE_VIOLATION {
          error := Some(DUPLICATE_SLUG);
        } else {
          error := Some(ErrorText(insert.message, ADD_FAILED));
        }
        loading := false;
        assert spec.error == error;
        return AddResult(Some(row), error);
      }
      name := "";
      businessType := "";
      RemoveLogo();
      loading := false;
      assert spec.error == None;
      result := AddResult(Some(row), None);
    }
  }
}
