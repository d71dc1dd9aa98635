/**
  The three upload endpoints: read the photo from the request, have the menu
  read, resolve every line and answer with the menu or an error.
 */
module Handlers {
  import opened Wrappers
  import opened Seqs
  import opened Collaborators
  import opened MenuLines
  import opened Multipart
  import opened Menu

  /** A response: HTTP status and JSON body. */
  datatype Reply = Reply(status: nat, body: Response)

  const NoFileMessage: string := "No file uploaded"
  const InternalMessage: string := "Internal server error"
  const NoImageMessage: string := "No image data found"
  const IndexMessage: string := "list index out of range"
  const NoHeaderMessage: string := "'NoneType' object has no attribute 'split'"

  /**
    What `formData.get('menuImage')` gives the TypeScript route: the body
    could not be read as a form (`formData()` rejects), the field is missing,
    it is a text field, or it is a file with these bytes.
   */
  datatype FormField = Unreadable | NoField | TextField(text: string) | FileField(bytes: seq<Byte>)

  /**
    `POST` of the TypeScript route. A missing field and an empty text field
    are falsy and give 400; a non-empty text field has no `arrayBuffer`, and
    the `TypeError` gives 500, as does an unreadable form; a file, even an
    empty one, is read.
   */
  function PostReply(form: FormField, extract: seq<Byte> -> ExtractionReply, credentials: bool, world: nat -> Env): Reply
  {
    match form
    case Unreadable => Reply(500, Error(InternalMessage))
    case NoField => Reply(400, Error(NoFileMessage))
    case TextField(text) => if text == "" then Reply(400, Error(NoFileMessage)) else Reply(500, Error(InternalMessage))
    case FileField(bytes) => Reply(200, Menu(MenuOf(NextRoute, TsExtractItems(extract(bytes)), credentials, world)))
  }

  /** `POST` of the TypeScript route, step by step. */
  method Post(form: FormField, extract: seq<Byte> -> ExtractionReply, credentials: bool, world: nat -> Env)
    returns (reply: Reply)
    ensures reply == PostReply(form, extract, credentials, world)
  {
    if form.Unreadable? {
      return Reply(500, Error(InternalMessage));
    }
    if form.NoField? || (form.TextField? && form.text == "") {
      return Reply(400, Error(NoFileMessage));
    }
    if form.TextField? {
      return Reply(500, Error(InternalMessage));
    }
    var items := TsExtractItems(extract(form.bytes));
    var results := BuildMenu(NextRoute, items, credentials, world);
    return Reply(200, Menu(results));
  }

  /**
    The body `do_POST` writes (its status handling is left out). A missing
    `Content-Type` header, or one without `boundary=`, raises; a body
    without image bytes, or with empty ones, gives the "No image data found"
    error; otherwise the menu.
   */
  function DoPostBody(contentType: Option<string>, body: seq<Byte>, extract: seq<Byte> -> ExtractionReply,
                      credentials: bool, world: nat -> Env): Response
  {
    match contentType
    case None => Error(NoHeaderMessage)
    case Some(header) =>
      match Boundary(header)
      case None => Error(IndexMessage)
      case Some(boundary) =>
        var data := ImageData(boundary, body);
        if data.None? || data.value == [] then Error(NoImageMessage)
        else Menu(MenuOf(VercelFunction, PyExtractItems(extract(data.value)), credentials, world))
  }

  /** `do_POST` of the serverless Python function, step by step. */
  method DoPost(contentType: Option<string>, body: seq<Byte>, extract: seq<Byte> -> ExtractionReply,
                credentials: bool, world: nat -> Env) returns (response: Response)
    ensures response == DoPostBody(contentType, body, extract, credentials, world)
  {
    if contentType.None? {
      return Error(NoHeaderMessage);
    }
    var boundary := Boundary(contentType.value);
    if boundary.None? {
      return Error(IndexMessage);
    }
    var parts := Split(body, Separator(boundary.value));
    var imageData := FindImageData(parts);
    if imageData.None? || imageData.value == [] {
      return Error(NoImageMessage);
    }
    var items := PyExtractItems(extract(imageData.value));
    var results := BuildMenu(VercelFunction, items, credentials, world);
    return Menu(results);
  }

  /** What `request.files.get("menuImage")` gives Flask: nothing, or a file with its name and bytes. */
  datatype Upload = NoFile | Upload(filename: string, content: seq<Byte>)

  /**
    `upload_menu` of the Flask backend. A missing file, and a file with an
    empty name (which is falsy), give 400; otherwise the menu.
   */
  function UploadReply(upload: Upload, extract: seq<Byte> -> ExtractionReply, credentials: bool, world: nat -> Env): Reply
  {
    match upload
    case NoFile => Reply(400, Error(NoFileMessage))
    case Upload(filename, content) =>
      if filename == "" then Reply(400, Error(NoFileMessage))
      else Reply(200, Menu(MenuOf(FlaskBackend, PyExtractItems(extract(content)), credentials, world)))
  }

  /** `upload_menu` of the Flask backend, step by step. */
  method UploadMenu(upload: Upload, extract: seq<Byte> -> ExtractionReply, credentials: bool, world: nat -> Env)
    returns (reply: Reply)
    ensures reply == UploadReply(upload, extract, credentials, world)
  {
    if upload.NoFile? || upload.filename == "" {
      return Reply(400, Error(NoFileMessage));
    }
    var items := PyExtractItems(extract(upload.content));
    var results := BuildMenu(FlaskBackend, items, credentials, world);
    return Reply(200, Menu(results));
  }

  /**
    The TypeScript route answers 400 exactly when no file was sent (missing or
    empty text field), 200 exactly for a file, and 500 otherwise; the menu has
    one entry per non-blank line of the reading, in order.
   */
  lemma PostOutcome(form: FormField, extract: seq<Byte> -> ExtractionReply, credentials: bool, world: nat -> Env)
    ensures var reply := PostReply(form, extract, credentials, world);
      && (reply.status == 400 <==> form.NoField? || form == TextField(""))
      && (reply.status == 200 <==> form.FileField?)
      && (reply.status == 200 || reply.status == 400 || reply.status == 500)
      && (reply.status == 200 <==> reply.body.Menu?)
      && (form.FileField? ==> |reply.body.menu| == |TsExtractItems(extract(form.bytes))|)
  {
    if form.FileField? {
      MenuKeepsEveryLine(NextRoute, TsExtractItems(extract(form.bytes)), credentials, world);
    }
  }

  /**
    Flask answers 400 exactly when no file, or a file without a name, was
    sent; otherwise it answers 200 with one entry per line read, each entry
    naming its line.
   */
  lemma UploadOutcome(upload: Upload, extract: seq<Byte> -> ExtractionReply, credentials: bool, world: nat -> Env)
    ensures var reply := UploadReply(upload, extract, credentials, world);
      && (reply.status == 400 <==> upload.NoFile? || upload.filename == "")
      && (reply.status != 400 ==> reply.status == 200 && reply.body.Menu?)
      && (reply.body.Menu? ==>
            var items := PyExtractItems(extract(upload.content));
            |reply.body.menu| == |items| && forall i | 0 <= i < |items| :: reply.body.menu[i].item == items[i])
  {
    if upload.Upload? && upload.filename != "" {
      MenuKeepsEveryLine(FlaskBackend, PyExtractItems(extract(upload.content)), credentials, world);
    }
  }

  /**
    A request laid out as a client lays out a one-field form reaches the
    menu: with `boundary=` in the header, a boundary without CR or LF, and
    non-empty image bytes that do not end in CR or LF and do not hold the
    separator, `do_POST` reads exactly those bytes.
   */
  lemma DoPostReadsImage(prefix: string, boundary: string, header: seq<Byte>, data: seq<Byte>, tail: seq<Byte>,
                         extract: seq<Byte> -> ExtractionReply, credentials: bool, world: nat -> Env)
    requires Boundary(prefix + boundary) == Some(boundary)
    requires forall c | c in boundary :: c != '\r' && c != '\n'
    requires HeaderBlock(header) && IsInfix(Disposition, header)
    requires data != [] && !IsCrLf(data[|data| - 1])
    requires !IsInfix(Separator(boundary), PartWith(header, data))
    ensures DoPostBody(Some(prefix + boundary), Separator(boundary) + PartWith(header, data) + Separator(boundary) + tail,
                       extract, credentials, world)
         == Menu(MenuOf(VercelFunction, PyExtractItems(extract(data)), credentials, world))
  {
    ImageDataRoundTrip(boundary, header, data, tail);
  }

  /** A body whose parts never name the field gives the "No image data found" error. */
  lemma DoPostWithoutField(header: string, body: seq<Byte>, extract: seq<Byte> -> ExtractionReply,
                           credentials: bool, world: nat -> Env)
    requires Boundary(header).Some?
    requires forall part | part in Split(body, Separator(Boundary(header).value)) :: !IsInfix(Disposition, part)
    ensures DoPostBody(Some(header), body, extract, credentials, world) == Error(NoImageMessage)
  {
    var parts := Split(body, Separator(Boundary(header).value));
    FirstPayloadNone(parts, 0);
  }
}
