/** The photo routes over the upload directory: the two upload routes (event
    covers and gallery photos), the delete route and the listing. The
    directory `public/uploads` is a map from file name to contents, held in
    an `UploadDirectory` object whose methods are the routes that write. */
module Photos {
  import opened Text
  import opened Json
  import Utf8
  import Auth
  import opened Filenames

  // ---------------------------------------------------------------------
  // Uploads
  // ---------------------------------------------------------------------

  /** A file field of a multipart form: its name, declared MIME type and bytes. */
  datatype File = File(name: string, mimeType: string, bytes: seq<Utf8.Byte>)

  /** `req.formData()`: `Unreadable` when the body is not a form (the call
      throws, and the route's catch answers 500), else the `file` field:
      a file or absent, or `TextEntry` when it was sent as a text field, which
      `formData.get` returns as a string. */
  datatype Form = Unreadable | Form(file: Option<File>) | TextEntry(text: string)

  /** The reply of a successful upload: `{ success: true, filename, path }`. */
  datatype Stored = Stored(filename: string, path: string)

  const UploadError := "Error uploading file"

  /** The guards both upload routes pass before writing anything. */
  predicate Admissible(header: Option<string>, config: Auth.Config, form: Form)
  {
    Auth.CheckAuth(header, config) && form.Form? && form.file.Some? &&
    StartsWith(form.file.value.mimeType, "image/")
  }

  /** The reply to an upload that fails a guard: the first failing guard, in
      the order credentials, form, file present, image type. A non-empty text
      entry has no `type`, so the type test throws and the catch answers 500. */
  function Rejection<T>(header: Option<string>, config: Auth.Config, form: Form): (r: Response<T>)
    requires !Admissible(header, config, form)
    ensures r.Failure? && r.details.None?
    ensures r.status == 401 <==> !Auth.CheckAuth(header, config)
    ensures r.status == 500 <==> Auth.CheckAuth(header, config) && (form.Unreadable? || (form.TextEntry? && form.text != ""))
    ensures r.status == 500 ==> r.error == UploadError
    ensures r.error == "No file uploaded" <==>
      Auth.CheckAuth(header, config) && ((form.Form? && form.file.None?) || form == TextEntry(""))
    ensures r.error == "File must be an image" <==> Auth.CheckAuth(header, config) && form.Form? && form.file.Some?
  {
    if !Auth.CheckAuth(header, config) then Fail(401, Unauthorized)
    else if form.Unreadable? then Fail(500, UploadError)
    else if form.TextEntry? then
      if form.text == "" then Fail(400, "No file uploaded") else Fail(500, UploadError)
    else if form.file.None? then Fail(400, "No file uploaded")
    else Fail(400, "File must be an image")
  }

  /** The reply of `POST /api/events/upload`. */
  function CoverUpload(header: Option<string>, config: Auth.Config, form: Form, now: nat): (r: Response<Stored>)
    ensures r.Success? <==> Admissible(header, config, form)
    ensures r.Failure? ==> r == Rejection(header, config, form)
    ensures r.Success? ==> StartsWith(r.value.filename, "event-") && r.value.path == UploadPath(r.value.filename)
  {
    if Admissible(header, config, form) then
      var name := CoverName(now, form.file.value.name);
      Success(Stored(name, UploadPath(name)))
    else Rejection(header, config, form)
  }

  /** The reply of `POST /api/photos/add`. */
  function PhotoUpload(header: Option<string>, config: Auth.Config, form: Form, now: nat): (r: Response<Stored>)
    ensures r.Success? <==> Admissible(header, config, form)
    ensures r.Failure? ==> r == Rejection(header, config, form)
    ensures r.Success? ==> EndsWith(r.value.filename, "-" + form.file.value.name) && r.value.path == UploadPath(r.value.filename)
  {
    if Admissible(header, config, form) then
      var name := PhotoName(now, form.file.value.name);
      Success(Stored(name, UploadPath(name)))
    else Rejection(header, config, form)
  }

  // ---------------------------------------------------------------------
  // Deletion
  // ---------------------------------------------------------------------

  /** A name the delete route refuses as a path escape. */
  predicate Dangerous(name: string)
  {
    Contains(name, "..") || StartsWith(name, "/") || StartsWith(name, "\\")
  }

  /** The `filename` values the delete route goes on to look up. */
  predicate Deletable(v: Json)
  {
    v.JStr? && IsImageName(v.s) && !Dangerous(v.s)
  }

  const DeletionError := "Error deleting file"

  /** The message of the `TypeError` thrown when `filename` is an array: an
      array has `includes` but no `startsWith`. */
  const NoStartsWith := "filename.startsWith is not a function"

  /** The message of the `TypeError` thrown when the body is `null`. */
  const NullDestructure := "Cannot destructure property 'filename' of 'body' as it is null."

  /** The validation chain of `DELETE /api/photos/delete`, up to the
      existence check: the name to remove, or the reply. The regex test reads
      its argument as a string, so a non-string `filename` is tested as what
      it renders to; an array that passes it reaches the path test, which
      throws, and the route answers 500, as it does for a `null` body, whose
      destructuring throws. */
  function DeletionTarget(header: Option<string>, config: Auth.Config, req: JsonRequest): (r: Response<string>)
    ensures !Auth.CheckAuth(header, config) ==> r == Fail(401, Unauthorized)
    ensures r.Success? <==> Auth.CheckAuth(header, config) && req.Parsed? && Deletable(Field(req.body, "filename"))
    ensures r.Success? ==> Field(req.body, "filename") == JStr(r.value)
    ensures Auth.CheckAuth(header, config) && req.Unparsable? ==> r == Fail(400, "Invalid request body")
    ensures Auth.CheckAuth(header, config) && req.NullBody? ==> r == Failure(500, DeletionError, Some(NullDestructure))
    ensures Auth.CheckAuth(header, config) && req.Parsed? ==>
      var v := Field(req.body, "filename");
      && (!Truthy(v) ==> r == Fail(400, "No filename provided"))
      && (Truthy(v) && !IsImageName(Render(v)) ==> r == Fail(400, "Invalid file extension"))
      && (v.JStr? && IsImageName(v.s) && Dangerous(v.s) ==> r == Fail(400, "Invalid filename"))
      && (v.JOther? && IsImageName(v.text) ==> r == Failure(500, DeletionError, Some(NoStartsWith)))
  {
    if !Auth.CheckAuth(header, config) then Fail(401, Unauthorized)
    else if req.Unparsable? then Fail(400, "Invalid request body")
    else if req.NullBody? then Failure(500, DeletionError, Some(NullDestructure))
    else
      var v := Field(req.body, "filename");
      NonStringIsNoImageName(v);
      if !Truthy(v) then Fail(400, "No filename provided")
      else if !IsImageName(Render(v)) then Fail(400, "Invalid file extension")
      else if v.JOther? then Failure(500, DeletionError, Some(NoStartsWith))
      else if Dangerous(Render(v)) then Fail(400, "Invalid filename")
      else Success(Render(v))
  }

  /** What a scalar other than a string renders to has no dot, so it never
      passes the extension test; whatever passes it is truthy. */
  lemma NonStringIsNoImageName(v: Json)
    ensures !v.JStr? && !v.JOther? ==> !IsImageName(Render(v))
    ensures IsImageName(Render(v)) ==> Truthy(v)
  {
    ImageNameByExtension(Render(v));
    if v.JNum? {
      var s := Render(v);
      var d := NatToString(if v.n < 0 then -v.n else v.n);
      assert s == d || s == "-" + d;
      assert forall i :: 0 <= i < |d| ==> IsDigit(d[i]);
      assert '.' !in s;
    }
  }

  /** A body that is not JSON, and a `filename` that is absent or empty, are
      answered before the name is examined. */
  lemma DeletionNeedsAName(header: Option<string>, config: Auth.Config, body: Body)
    requires Auth.CheckAuth(header, config)
    requires "filename" !in body || body["filename"] == JStr("")
    ensures DeletionTarget(header, config, Unparsable) == Fail(400, "Invalid request body")
    ensures DeletionTarget(header, config, Parsed(body)) == Fail(400, "No filename provided")
  {
  }

  lemma TxtIsNoImageName()
    ensures !IsImageName("../a.txt")
  {
    LastIndexOfAt("../a.txt", '.', 4);
    ImageNameByExtension("../a.txt");
    assert ToLower("txt") == "txt";
  }

  lemma PngIsImageName()
    ensures IsImageName("../a.png")
  {
    LastIndexOfAt("../a.png", '.', 4);
    ImageNameByExtension("../a.png");
    assert ToLower("png") == "png";
  }

  /** The extension test comes before the path test, so `../a.txt` is
      reported as a bad extension and `../a.png` as a bad name. */
  lemma ExtensionCheckedBeforePath(header: Option<string>, config: Auth.Config)
    requires Auth.CheckAuth(header, config)
    ensures DeletionTarget(header, config, Parsed(map["filename" := JStr("../a.txt")])) == Fail(400, "Invalid file extension")
    ensures DeletionTarget(header, config, Parsed(map["filename" := JStr("../a.png")])) == Fail(400, "Invalid filename")
  {
    TxtIsNoImageName();
    PngIsImageName();
    var txt, png := JStr("../a.txt"), JStr("../a.png");
    assert Field(map["filename" := txt], "filename") == txt && Truthy(txt) && Render(txt) == "../a.txt";
    assert Field(map["filename" := png], "filename") == png && Truthy(png) && Render(png) == "../a.png";
    assert OccursAt("../a.png", "..", 0);
    assert Dangerous("../a.png");
  }

  /** `{"filename": ["a.png"]}`: the array renders as `a.png`, passes the
      extension test, and the call of `startsWith` on it throws. */
  lemma ArrayFilenameThrows(header: Option<string>, config: Auth.Config)
    requires Auth.CheckAuth(header, config)
    ensures DeletionTarget(header, config, Parsed(map["filename" := JOther("a.png")])) == Failure(500, DeletionError, Some(NoStartsWith))
  {
    LastIndexOfAt("a.png", '.', 1);
    ImageNameByExtension("a.png");
    assert ToLower("png") == "png";
    assert Field(map["filename" := JOther("a.png")], "filename") == JOther("a.png");
  }

  // ---------------------------------------------------------------------
  // The listing
  // ---------------------------------------------------------------------

  /** One entry of `GET /api/photos/get`. */
  datatype Photo = Photo(filename: string, url: string)

  function NamesOf(photos: seq<Photo>): (names: seq<string>)
    ensures |names| == |photos|
    ensures forall i :: 0 <= i < |photos| ==> names[i] == photos[i].filename
  {
    seq(|photos|, i requires 0 <= i < |photos| => photos[i].filename)
  }

  /** `a` is `b` with some entries left out, the rest kept in order. */
  predicate IsSubsequence(a: seq<string>, b: seq<string>)
    decreases |b|
  {
    if a == [] then true
    else if b == [] then false
    else (a[0] == b[0] && IsSubsequence(a[1..], b[1..])) || IsSubsequence(a, b[1..])
  }

  /** The filter and map of the listing route over the directory entries. */
  function Listing(entries: seq<string>): (r: seq<Photo>)
    ensures forall p :: p in r ==> p.filename in entries && IsImageName(p.filename) && p.url == UploadPath(p.filename)
    ensures forall e :: e in entries && IsImageName(e) ==> Photo(e, UploadPath(e)) in r
    ensures IsSubsequence(NamesOf(r), entries)
  {
    if entries == [] then []
    else
      var rest := Listing(entries[1..]);
      if IsImageName(entries[0]) then
        var r := [Photo(entries[0], UploadPath(entries[0]))] + rest;
        assert NamesOf(r)[1..] == NamesOf(rest);
        r
      else
        assert NamesOf(rest) != [] ==> NamesOf(rest)[0] != entries[0] by {
          if NamesOf(rest) != [] { assert rest[0] in rest; }
        }
        rest
  }

  /** `GET /api/photos/get`: the listing, or 500 when the directory cannot be
      read (`None`). */
  function GetPhotos(entries: Option<seq<string>>): (r: Response<seq<Photo>>)
    ensures entries.None? <==> r == Fail(500, "Error getting photos")
    ensures r.Success? ==> r.value == Listing(entries.value)
  {
    match entries
    case None => Fail(500, "Error getting photos")
    case Some(names) => Success(Listing(names))
  }

  /** `entries` is what `readdir` gives for a directory holding `files`. */
  ghost predicate Enumerates(entries: seq<string>, files: map<string, seq<Utf8.Byte>>)
  {
    (forall name :: name in entries ==> name in files) &&
    (forall name :: name in files ==> name in entries)
  }

  /** A stored file is listed exactly when its name is an image name. */
  lemma ListedIff(entries: seq<string>, files: map<string, seq<Utf8.Byte>>, name: string)
    requires Enumerates(entries, files)
    ensures Photo(name, UploadPath(name)) in Listing(entries) <==> name in files && IsImageName(name)
    ensures name in NamesOf(Listing(entries)) <==> name in files && IsImageName(name)
  {
    var r := Listing(entries);
    if name in NamesOf(r) {
      var i :| 0 <= i < |r| && NamesOf(r)[i] == name;
      assert r[i] in r;
    }
    if name in files && IsImageName(name) {
      var i :| 0 <= i < |r| && r[i] == Photo(name, UploadPath(name));
      assert NamesOf(r)[i] == name;
    }
  }

  // ---------------------------------------------------------------------
  // The directory
  // ---------------------------------------------------------------------

  class UploadDirectory {
    /** `public/uploads`: name to contents. */
    var files: map<string, seq<Utf8.Byte>>

    constructor(initial: map<string, seq<Utf8.Byte>>)
      ensures files == initial
    {
      files := initial;
    }

    /** `POST /api/events/upload`: writes (or overwrites) the cover under its
        stored name and changes nothing else; a rejected request writes nothing. */
    method UploadCover(header: Option<string>, config: Auth.Config, form: Form, now: nat) returns (r: Response<Stored>)
      modifies this
      ensures r == CoverUpload(header, config, form, now)
      ensures r.Success? ==> files == old(files)[r.value.filename := form.file.value.bytes]
      ensures r.Failure? ==> files == old(files)
    {
      if !Admissible(header, config, form) {
        return Rejection(header, config, form);
      }
      var file := form.file.value;
      var name := CoverName(now, file.name);
      files := files[name := file.bytes];
      r := Success(Stored(name, UploadPath(name)));
    }

    /** `POST /api/photos/add`: the same, under the unsanitised name. */
    method AddPhoto(header: Option<string>, config: Auth.Config, form: Form, now: nat) returns (r: Response<Stored>)
      modifies this
      ensures r == PhotoUpload(header, config, form, now)
      ensures r.Success? ==> files == old(files)[r.value.filename := form.file.value.bytes]
      ensures r.Failure? ==> files == old(files)
    {
      if !Admissible(header, config, form) {
        return Rejection(header, config, form);
      }
      var file := form.file.value;
      var name := PhotoName(now, file.name);
      files := files[name := file.bytes];
      r := Success(Stored(name, UploadPath(name)));
    }

    /** `DELETE /api/photos/delete`: a name that passes the checks and is
        present is removed, and nothing else; otherwise nothing changes. */
    method DeletePhoto(header: Option<string>, config: Auth.Config, req: JsonRequest) returns (r: Response<bool>)
      modifies this
      ensures var t := DeletionTarget(header, config, req);
        (t.Failure? ==> r == Propagate(t) && files == old(files)) &&
        (t.Success? && t.value !in old(files) ==> r == Fail(404, "File not found") && files == old(files)) &&
        (t.Success? && t.value in old(files) ==> r == Success(true) && files == old(files) - {t.value})
    {
      var t := DeletionTarget(header, config, req);
      if t.Failure? {
        return Propagate(t);
      }
      if t.value !in files {
        return Fail(404, "File not found");
      }
      files := files - {t.value};
      r := Success(true);
    }
  }

  // ---------------------------------------------------------------------
  // Across the routes
  // ---------------------------------------------------------------------

  /** A gallery upload whose name is not an image name is written but the
      listing never shows it; one whose name is an image name is listed. */
  lemma PhotoListedIffImageName(now: nat, f: File, entries: seq<string>, files: map<string, seq<Utf8.Byte>>)
    requires PhotoName(now, f.name) in files && Enumerates(entries, files)
    ensures PhotoName(now, f.name) in NamesOf(Listing(entries)) <==> IsImageName(f.name)
  {
    PhotoNameIsImageIff(now, f.name);
    ListedIff(entries, files, PhotoName(now, f.name));
  }

  /** Covers live in the same directory, so a cover uploaded under an image
      name shows up in the gallery listing. */
  lemma CoverListed(now: nat, f: File, entries: seq<string>, files: map<string, seq<Utf8.Byte>>)
    requires CoverName(now, f.name) in files && Enumerates(entries, files)
    requires IsImageName(f.name)
    ensures Photo(CoverName(now, f.name), UploadPath(CoverName(now, f.name))) in Listing(entries)
  {
    CoverNameIsImageIff(now, f.name);
    ListedIff(entries, files, CoverName(now, f.name));
  }

  /** The listing shows names the delete route refuses: a gallery photo
      uploaded as `a..png` is listed, and deleting it answers "Invalid filename". */
  lemma ListedButNotDeletable(now: nat, name: string, header: Option<string>, config: Auth.Config)
    requires Auth.CheckAuth(header, config)
    requires IsImageName(name) && Contains(name, "..")
    ensures IsImageName(PhotoName(now, name))
    ensures DeletionTarget(header, config, Parsed(map["filename" := JStr(PhotoName(now, name))]))
         == Fail(400, "Invalid filename")
  {
    PhotoNameIsImageIff(now, name);
    var p := NatToString(now) + "-";
    var i :| 0 <= i <= |name| - 2 && OccursAt(name, "..", i);
    assert PhotoName(now, name) == p + name;
    assert OccursAt(PhotoName(now, name), "..", |p| + i);
  }
}
