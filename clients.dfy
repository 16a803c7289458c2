/**
 * The client records the two client forms write, and the outcomes of the
 * backend calls they make. The calls themselves (file storage upload,
 * public-URL lookup, row insert and update) happen outside the model: each
 * form's submit takes their outcomes as inputs.
 */
module Clients {
  import opened Optional

  /** A stored client row. */
  datatype Client = Client(id: string, name: string, businessType: string, logoUrl: string, slug: string)

  /** The row the add form inserts. */
  datatype NewClient = NewClient(name: string, businessType: string, logoUrl: string, slug: string)

  /** The fields the edit form writes to an existing row. */
  datatype ClientChanges = ClientChanges(name: string, businessType: string, logoUrl: string)

  /** A file picked in the logo input; only its identity matters here. */
  datatype LogoFile = LogoFile(fileName: string)

  /** What the storage upload of a logo answers: the file's public URL, or an error. */
  datatype UploadOutcome = Uploaded(publicUrl: string) | UploadFailed(message: string)

  /** What a row insert or update answers: success, or an error with its code and message. */
  datatype WriteOutcome = Written | WriteFailed(code: string, message: string)

  /** The logo reference a submit goes on to write, or the upload error that stops it. */
  datatype LogoResolution = LogoUrl(url: string) | UploadError(message: string)

  /** The text a form shows for a caught error: its message, or the form's fixed text when the message is empty. */
  function ErrorText(message: string, fallback: string): (r: string)
    ensures message != "" ==> r == message
    ensures message == "" ==> r == fallback
  {
    if message != "" then message else fallback
  }

  /** A picked file goes through the upload: its public URL on success, the upload's error otherwise. */
  function UploadedLogo(upload: UploadOutcome): (r: LogoResolution)
    ensures r.LogoUrl? <==> upload.Uploaded?
    ensures upload.Uploaded? ==> r.url == upload.publicUrl
    ensures upload.UploadFailed? ==> r.message == upload.message
  {
    match upload
    case Uploaded(url) => LogoUrl(url)
    case UploadFailed(message) => UploadError(message)
  }

  /**
   * The row after `update(changes).eq('id', c.id)`: exactly the three
   * written fields change; the id and the slug stay, so renaming a client
   * does not recompute its slug.
   */
  function ApplyChanges(c: Client, changes: ClientChanges): (r: Client)
    ensures r.id == c.id && r.slug == c.slug
    ensures r.name == changes.name && r.businessType == changes.businessType && r.logoUrl == changes.logoUrl
  {
    c.(name := changes.name, businessType := changes.businessType, logoUrl := changes.logoUrl)
  }
}
