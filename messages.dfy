/**
 * The fields a create request carries, the ordered validation the handler
 * applies to them, and the draft row it hands to the store when they pass.
 */
module Messages {
  import opened Wrappers
  import opened Text

  newtype byte = x: int | 0 <= x < 256

  /** Upper bound on `content.length`, in UTF-16 code units (one `char` each here). */
  const MaxContentLength: nat := 1000
  /** Upper bound on the uploaded image, in bytes: 5 MiB. */
  const MaxImageSize: nat := 5 * 1024 * 1024
  const ImageTypePrefix: string := "image/"

  /** An uploaded file part: its bytes (so `size` is their number) and its declared MIME type. */
  datatype Upload = Upload(bytes: seq<byte>, mimeType: string)

  /** What `formData.get('image')` returns: nothing, a plain text field, or a file. */
  datatype FormValue = Absent | TextValue(text: string) | FileValue(file: Upload)

  /** The parsed multipart body: `content` and `name` are text fields or absent. */
  datatype Form = Form(content: Option<string>, name: Option<string>, image: FormValue)

  /** A stored image: the blob and its MIME type, always present together. */
  datatype Image = Image(data: seq<byte>, mimeType: string)

  /** The values the insert binds: content, the sender name (stored in the `email` column) and the image. */
  datatype Draft = Draft(content: string, email: string, image: Option<Image>)

  /** The four validation failures, each answered with status 400. */
  datatype CreateError = EmptyField | ContentTooLong | ImageTooLarge | NotAnImage

  /** JavaScript truthiness of a form text field: present and not the empty string. */
  predicate Filled(field: Option<string>)
  {
    field.Some? && field.value != ""
  }

  /** The error text the handler sends back for each failure. */
  function ErrorText(e: CreateError): (text: string)
    ensures text != []
  {
    match e
    case EmptyField => "留言内容和名字不能为空"
    case ContentTooLong => "留言内容不能超过1000个字符"
    case ImageTooLarge => "图片大小不能超过5MB"
    case NotAnImage => "只允许上传图片文件"
  }

  /** Each failure has its own text. */
  lemma ErrorTextsDistinct(a: CreateError, b: CreateError)
    requires a != b
    ensures ErrorText(a) != ErrorText(b)
  {
  }

  /** What every row the service writes satisfies. */
  predicate DraftOk(d: Draft)
  {
    && d.content != [] && |d.content| <= MaxContentLength
    && d.email != []
    && (d.image.Some? ==>
          |d.image.value.data| <= MaxImageSize && StartsWith(d.image.value.mimeType, ImageTypePrefix))
  }

  /**
   * The create validation: four checks in a fixed order, the first failure
   * winning. Each error is returned exactly when its own check fails and
   * every earlier one passed; on success the draft carries the submitted
   * fields, the name as `email`, and the file's bytes and type only if a
   * file was sent.
   */
  function Validate(form: Form): (r: Result<Draft, CreateError>)
    ensures r == Failure(EmptyField) <==> !Filled(form.content) || !Filled(form.name)
    ensures r == Failure(ContentTooLong) <==>
      Filled(form.content) && Filled(form.name) && |form.content.value| > MaxContentLength
    ensures r == Failure(ImageTooLarge) <==>
      && Filled(form.content) && Filled(form.name) && |form.content.value| <= MaxContentLength
      && form.image.FileValue? && |form.image.file.bytes| > MaxImageSize
    ensures r == Failure(NotAnImage) <==>
      && Filled(form.content) && Filled(form.name) && |form.content.value| <= MaxContentLength
      && form.image.FileValue? && |form.image.file.bytes| <= MaxImageSize
      && !StartsWith(form.image.file.mimeType, ImageTypePrefix)
    ensures r.Success? ==>
      && DraftOk(r.value)
      && r.value.content == form.content.value
      && r.value.email == form.name.value
      && (r.value.image.None? <==> !form.image.FileValue?)
      && (form.image.FileValue? ==>
            r.value.image == Some(Image(form.image.file.bytes, form.image.file.mimeType)))
  {
    if !Filled(form.content) || !Filled(form.name) then Failure(EmptyField)
    else if |form.content.value| > MaxContentLength then Failure(ContentTooLong)
    else
      var image :=
        match form.image
        case FileValue(file) =>
          if |file.bytes| > MaxImageSize then Failure(ImageTooLarge)
          else if !StartsWith(file.mimeType, ImageTypePrefix) then Failure(NotAnImage)
          else Success(Some(Image(file.bytes, file.mimeType)))
        case _ => Success(None);
      if image.Failure? then Failure(image.error)
      else Success(Draft(form.content.value, form.name.value, image.value))
  }

  /** Content of exactly 1000 code units passes; one more is rejected. */
  lemma ContentLengthBoundary(content: string, name: string)
    requires |content| == MaxContentLength && name != ""
    ensures Validate(Form(Some(content), Some(name), Absent)).Success?
    ensures Validate(Form(Some(content + "x"), Some(name), Absent)) == Failure(ContentTooLong)
  {
  }

  /** An image of exactly 5 MiB passes; one more byte is rejected. */
  lemma ImageSizeBoundary(bytes: seq<byte>, mimeType: string)
    requires |bytes| == MaxImageSize && StartsWith(mimeType, ImageTypePrefix)
    ensures Validate(Form(Some("hello"), Some("alice"), FileValue(Upload(bytes, mimeType)))).Success?
    ensures Validate(Form(Some("hello"), Some("alice"), FileValue(Upload(bytes + [0], mimeType))))
              == Failure(ImageTooLarge)
  {
  }
}
