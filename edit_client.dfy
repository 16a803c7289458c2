/**
 * The edit-client form: it opens on a stored client's fields and logo,
 * lets the user replace or remove the logo, and on submit uploads a newly
 * picked logo (if any) and updates the row's name, business type and logo
 * reference. Unlike the add form it does not clear itself on success.
 */
module EditClient {
  import opened Optional
  import opened Clients

  /** The text shown for a caught error without a message. */
  const UPDATE_FAILED: string := "Erro ao atualizar cliente"

  /** What one submit does: the changes it asked the backend to write, if it got that far, and the error it shows, if any. */
  datatype EditResult = EditResult(sent: Option<ClientChanges>, error: Option<string>)

  /** The preview the form opens with: the stored logo, or none when the stored reference is empty. */
  function InitialPreview(logoUrl: string): (p: Option<string>)
    ensures p.None? <==> logoUrl == ""
    ensures p.Some? ==> p.value == logoUrl
  {
    if logoUrl != "" then Some(logoUrl) else None
  }

  /**
   * The logo reference an edit writes. A picked file is uploaded; without
   * one, a removed preview clears the reference and a kept preview keeps
   * the stored one.
   */
  function EditLogo(existing: string, file: Option<LogoFile>, preview: Option<string>, upload: UploadOutcome): (r: LogoResolution)
    ensures r.UploadError? ==> file.Some? && upload.UploadFailed?
    ensures file.Some? ==> r == UploadedLogo(upload)
    ensures file.None? ==> r.LogoUrl? && (r.url == existing || r.url == "")
    ensures file.None? ==> (r.url == "" <==> preview.None? || existing == "")
  {
    if file.Some? then UploadedLogo(upload)
    else if preview.None? then LogoUrl("")
    else LogoUrl(existing)
  }

  /**
   * The outcome of submitting `name`, `businessType`, the picked `file` and
   * the shown `preview` for client `c` when the upload answers `upload` and
   * the update answers `update`. The update's error code plays no part.
   */
  function EditSubmission(c: Client, name: string, businessType: string, file: Option<LogoFile>,
                          preview: Option<string>, upload: UploadOutcome, update: WriteOutcome): (r: EditResult)
    // the update is issued unless a picked file failed to upload
    ensures r.sent.None? <==> file.Some? && upload.UploadFailed?
    // it writes the typed fields
    ensures r.sent.Some? ==> r.sent.value.name == name && r.sent.value.businessType == businessType
    // and the new logo, the stored one, or none
    ensures r.sent.Some? && file.Some? ==> upload.Uploaded? && r.sent.value.logoUrl == upload.publicUrl
    ensures r.sent.Some? && file.None? && preview.Some? ==> r.sent.value.logoUrl == c.logoUrl
    ensures r.sent.Some? && file.None? && preview.None? ==> r.sent.value.logoUrl == ""
    // it succeeds exactly when the update was issued and written
    ensures r.error.None? <==> r.sent.Some? && update.Written?
    ensures r.sent.None? ==> r.error == Some(ErrorText(upload.message, UPDATE_FAILED))
    ensures r.sent.Some? && update.WriteFailed? ==> r.error == Some(ErrorText(update.message, UPDATE_FAILED))
  {
    match EditLogo(c.logoUrl, file, preview, upload)
    case UploadError(message) => EditResult(None, Some(ErrorText(message, UPDATE_FAILED)))
    case LogoUrl(url) =>
      var changes := ClientChanges(name, businessType, url);
      match update
      case Written => EditResult(Some(changes), None)
      case WriteFailed(_, message) => EditResult(Some(changes), Some(ErrorText(message, UPDATE_FAILED)))
  }

  /** Submitting the form as it opened, whatever the backend answers, sends the client's own fields: the stored row is unchanged. */
  lemma UntouchedEditKeepsRow(c: Client, upload: UploadOutcome, update: WriteOutcome)
    ensures var r := EditSubmission(c, c.name, c.businessType, None, InitialPreview(c.logoUrl), upload, update);
      r.sent.Some? && ApplyChanges(c, r.sent.value) == c
  {
  }

  /**
   * After a successful edit the stored row is the same client (same id and
   * slug) with the typed name and business type; a rename keeps the old
   * slug.
   */
  lemma EditedRow(c: Client, name: string, businessType: string, file: Option<LogoFile>,
                  preview: Option<string>, upload: UploadOutcome, update: WriteOutcome)
    ensures var r := EditSubmission(c, name, businessType, file, preview, upload, update);
      r.error.None? ==>
        var stored := ApplyChanges(c, r.sent.value);
        stored.id == c.id && stored.slug == c.slug &&
        stored.name == name && stored.businessType == businessType &&
        stored.logoUrl == (if file.Some? then upload.publicUrl else if preview.Some? then c.logoUrl else "")
  {
  }

  class EditClientForm {
    /** The client being edited. */
    const client: Client
    var name: string
    var businessType: string
    var logoFile: Option<LogoFile>
    /** The logo shown: the stored one, a picked file's preview URL, or none. */
    var logoPreview: Option<string>
    var loading: bool
    var error: Option<string>

    /**
     * A picked file always has a preview; without a picked file, the preview
     * shown is the client's stored logo, which is then not empty.
     */
    predicate Valid()
      reads this
    {
      (logoFile.Some? ==> logoPreview.Some?) &&
      (logoFile.None? && logoPreview.Some? ==> logoPreview.value == client.logoUrl && client.logoUrl != "")
    }

    /** The form opens on the client's name, business type and stored logo, with no file picked. */
    constructor (c: Client)
      ensures Valid()
      ensures client == c
      ensures name == c.name && businessType == c.businessType
      ensures logoFile == None && logoPreview == InitialPreview(c.logoUrl)
      ensures !loading && error == None
    {
      client := c;
      name := c.name;
      businessType := c.businessType;
      logoFile := None;
      logoPreview := InitialPreview(c.logoUrl);
      loading := false;
      error := None;
    }

    /**
     * The logo reference a submit now would write when the upload answers
     * `upload`. Without a picked file it is exactly the logo on show, or
     * none when none is shown.
     */
    function PendingLogo(upload: UploadOutcome): (r: LogoResolution)
      reads this
      requires Valid()
      ensures logoFile.Some? ==> r == UploadedLogo(upload)
      ensures logoFile.None? ==> r == LogoUrl(if logoPreview.Some? then logoPreview.value else "")
    {
      EditLogo(client.logoUrl, logoFile, logoPreview, upload)
    }

    /**
     * Picking a file replaces the logo and its preview; `objectUrl` stands
     * for the browser's preview URL of the file. An empty pick changes nothing.
     */
    method HandleFileChange(picked: Option<LogoFile>, objectUrl: string)
      requires Valid()
      modifies this
      ensures Valid()
      ensures picked.Some? ==> logoFile == picked && logoPreview == Some(objectUrl)
      ensures picked.None? ==> logoFile == old(logoFile) && logoPreview == old(logoPreview)
      ensures name == old(name) && businessType == old(businessType)
      ensures loading == old(loading) && error == old(error)
    {
      if picked.Some? {
        logoFile := picked;
        logoPreview := Some(objectUrl);
      }
    }

    /** The remove button drops the picked file and the preview, so a submit clears the stored logo. */
    method RemoveLogo()
      modifies this
      ensures Valid()
      ensures logoFile == None && logoPreview == None
      ensures forall upload :: PendingLogo(upload) == LogoUrl("")
      ensures name == old(name) && businessType == old(businessType)
      ensures loading == old(loading) && error == old(error)
    {
      logoFile := None;
      logoPreview := None;
    }

    /**
     * The submit handler. `upload` and `update` stand for the backend's
     * answers; the result is the changes the update was issued with (None
     * when the upload failed first) and the error shown (None exactly when
     * `onSuccess` ran). The entries are kept either way, and the form ends
     * not loading.
     */
    method HandleSubmit(upload: UploadOutcome, update: WriteOutcome) returns (result: EditResult)
      requires Valid()
      modifies this
      ensures Valid()
      ensures result == EditSubmission(client, old(name), old(businessType), old(logoFile), old(logoPreview), upload, update)
      ensures error == result.error && !loading
      ensures name == old(name) && businessType == old(businessType)
      ensures logoFile == old(logoFile) && logoPreview == old(logoPreview)
    {
      ghost var spec := EditSubmission(client, name, businessType, logoFile, logoPreview, upload, update);
      loading := true;
      error := None;
      var logoUrl := client.logoUrl;
      if logoFile.Some? {
        if upload.UploadFailed? {
          error := Some(ErrorText(upload.message, UPDATE_FAILED));
          loading := false;
          return EditResult(None, error);
        }
        logoUrl := upload.publicUrl;
      } else if logoPreview.None? {
        logoUrl := "";
      }
      var changes := ClientChanges(name, businessType, logoUrl);
      assert spec.sent == Some(changes);
      if update.WriteFailed? {
        error := Some(ErrorText(update.message, UPDATE_FAILED));
        loading := false;
        return EditResult(Some(changes), error);
      }
      loading := false;
      result := EditResult(Some(changes), None);
    }
  }
}
