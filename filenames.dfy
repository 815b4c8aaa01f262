/** Names of uploaded images: the cover-upload sanitiser and naming scheme,
    the gallery-upload naming scheme, the image-extension test shared by the
    listing and the delete route, and the title the gallery derives from a
    stored name. */
module Filenames {
  import opened Text

  // ---------------------------------------------------------------------
  // The extension regex /\.[^/.]+$/
  // ---------------------------------------------------------------------

  /** The regex `/\.[^/.]+$/` matches at `i`: a dot followed by one or more
      characters, none of them `/` or `.`, up to the end. */
  predicate ExtensionAt(s: string, i: int)
  {
    0 <= i < |s| - 1 && s[i] == '.' &&
    forall j :: i < j < |s| ==> s[j] != '/' && s[j] != '.'
  }

  /** `s.replace(/\.[^/.]+$/, "")`: drop the final dot-segment when there is one. */
  function StripExtension(s: string): string
  {
    match LastIndexOf(s, '.')
    case None => s
    case Some(i) => if i + 1 < |s| && '/' !in s[i + 1..] then s[..i] else s
  }

  /** The regex matches at most once, so the replacement removes exactly the
      match when there is one and changes nothing otherwise. */
  lemma StripExtensionMatchesRegex(s: string)
    ensures forall i :: ExtensionAt(s, i) ==> StripExtension(s) == s[..i]
    ensures (forall i :: !ExtensionAt(s, i)) ==> StripExtension(s) == s
  {
    forall i | ExtensionAt(s, i) ensures StripExtension(s) == s[..i] {
      assert '.' !in s[i + 1..];
      LastIndexOfAt(s, '.', i);
      assert '/' !in s[i + 1..];
    }
    var r := LastIndexOf(s, '.');
    if r.Some? && r.value + 1 < |s| && '/' !in s[r.value + 1..] {
      assert ExtensionAt(s, r.value);
    }
  }

  /** Splitting at a dot with no dot after it: the part after the dot is
      removed exactly when it is a non-empty run without `/`. */
  lemma StripExtensionOfDotted(stem: string, ext: string)
    requires '.' !in ext
    ensures StripExtension(stem + "." + ext) == if ext != [] && '/' !in ext then stem else stem + "." + ext
  {
    var s := stem + "." + ext;
    assert s[|stem| + 1..] == ext;
    LastIndexOfAt(s, '.', |stem|);
    assert s[..|stem|] == stem;
  }

  /** `s.split(".").pop()`: the text after the last dot, or all of `s`. */
  function AfterLastDot(s: string): (r: string)
    ensures '.' !in r
  {
    match LastIndexOf(s, '.')
    case None => s
    case Some(i) => s[i + 1..]
  }

  // ---------------------------------------------------------------------
  // sanitizeFilename (cover upload)
  // ---------------------------------------------------------------------

  predicate IsAsciiAlnum(c: char) { 'a' <= c <= 'z' || 'A' <= c <= 'Z' || '0' <= c <= '9' }

  /** The characters a sanitised base name may contain. */
  predicate IsSlugChar(c: char) { 'a' <= c <= 'z' || '0' <= c <= '9' || c == '-' }

  predicate NoDoubleHyphen(s: string)
  {
    forall i :: 0 <= i < |s| - 1 ==> !(s[i] == '-' && s[i + 1] == '-')
  }

  /** `.replace(/[^a-zA-Z0-9]/g, "-")`. */
  function HyphenateSpecials(s: string): (r: string)
    ensures |r| == |s|
    ensures forall i :: 0 <= i < |s| ==> r[i] == if IsAsciiAlnum(s[i]) then s[i] else '-'
  {
    if s == [] then [] else [if IsAsciiAlnum(s[0]) then s[0] else '-'] + HyphenateSpecials(s[1..])
  }

  /** Drops the leading run of hyphens. */
  function DropHyphens(s: string): (r: string)
    ensures |r| <= |s| && r == s[|s| - |r|..]
    ensures r == [] || r[0] != '-'
  {
    if s != [] && s[0] == '-' then DropHyphens(s[1..]) else s
  }

  /** `.replace(/-+/g, "-")`: every run of hyphens becomes one hyphen. */
  function CollapseHyphens(s: string): (r: string)
    ensures NoDoubleHyphen(r)
    ensures r == [] <==> s == []
    ensures r != [] ==> (r[0] == '-' <==> s[0] == '-')
    ensures forall c :: c in r ==> c in s
    decreases |s|
  {
    if s == [] then []
    else if s[0] == '-' then
      var t := DropHyphens(s[1..]);
      var rest := CollapseHyphens(t);
      assert forall c :: c in t ==> c in s[1..];
      "-" + rest
    else
      var rest := CollapseHyphens(s[1..]);
      [s[0]] + rest
  }

  /** The sanitised base name: the name without its final dot-segment,
      specials turned into hyphens, runs of hyphens collapsed, lower-cased. */
  function SanitizedBase(filename: string): string
  {
    ToLower(CollapseHyphens(HyphenateSpecials(StripExtension(filename))))
  }

  /** The extension kept by the sanitiser, `?.toLowerCase() || ""` included. */
  function SanitizedExtension(filename: string): string
  {
    ToLower(AfterLastDot(filename))
  }

  /** `sanitizeFilename`. */
  function SanitizeFilename(filename: string): string
  {
    SanitizedBase(filename) + "." + SanitizedExtension(filename)
  }

  lemma SanitizedBaseShape(filename: string)
    ensures forall c :: c in SanitizedBase(filename) ==> IsSlugChar(c)
    ensures NoDoubleHyphen(SanitizedBase(filename))
  {
    var h := HyphenateSpecials(StripExtension(filename));
    var c := CollapseHyphens(h);
    assert forall x :: x in h ==> IsAsciiAlnum(x) || x == '-';
    var b := ToLower(c);
    forall i | 0 <= i < |b| ensures IsSlugChar(b[i]) {
      assert c[i] in c;
    }
  }

  /** What `sanitizeFilename` guarantees: the result is a base name made only
      of `a-z`, `0-9` and single hyphens, then its only dot, then the
      lower-cased text after the original's last dot. */
  lemma SanitizeFilenameShape(filename: string)
    ensures var r := SanitizeFilename(filename);
      var k := |SanitizedBase(filename)|;
      LastIndexOf(r, '.') == Some(k) &&
      (forall i :: 0 <= i < k ==> IsSlugChar(r[i])) &&
      NoDoubleHyphen(r[..k]) &&
      r[k + 1..] == ToLower(AfterLastDot(filename))
  {
    var base, ext := SanitizedBase(filename), SanitizedExtension(filename);
    var r := SanitizeFilename(filename);
    SanitizedBaseShape(filename);
    assert forall i :: 0 <= i < |base| ==> r[i] == base[i] && base[i] in base;
    assert r[..|base|] == base;
    assert r[|base| + 1..] == ext;
    DotsSurviveLowering(AfterLastDot(filename));
    LastIndexOfAt(r, '.', |base|);
  }

  /** A name without a dot is its own extension: "photo" becomes "photo.photo". */
  lemma NoDotNameIsItsOwnExtension(filename: string)
    requires '.' !in filename
    ensures SanitizedExtension(filename) == ToLower(filename)
    ensures StripExtension(filename) == filename
  {
  }

  lemma PhotoBecomesPhotoPhoto()
    ensures SanitizeFilename("photo") == "photo.photo"
  {
    NoDotNameIsItsOwnExtension("photo");
    assert HyphenateSpecials("photo") == "photo";
    assert CollapseHyphens("photo") == "photo";
    assert ToLower("photo") == "photo";
  }

  /** Only the final dot-segment is removed; earlier dots become hyphens. */
  lemma EarlierDotsBecomeHyphens(stem: string, ext: string)
    requires '.' !in ext && '/' !in ext && ext != []
    ensures StripExtension(stem + "." + ext) == stem
    ensures SanitizedBase(stem + "." + ext) == ToLower(CollapseHyphens(HyphenateSpecials(stem)))
    ensures forall i :: 0 <= i < |stem| && stem[i] == '.' ==> HyphenateSpecials(stem)[i] == '-'
  {
    StripExtensionOfDotted(stem, ext);
  }

  // ---------------------------------------------------------------------
  // Stored names
  // ---------------------------------------------------------------------

  /** The name the cover upload stores: `event-${Date.now()}-${sanitised}`. */
  function CoverName(now: nat, filename: string): string
  {
    "event-" + NatToString(now) + "-" + SanitizeFilename(filename)
  }

  /** The name the gallery upload stores: `${Date.now()}-${file.name}`, unsanitised. */
  function PhotoName(now: nat, filename: string): string
  {
    NatToString(now) + "-" + filename
  }

  /** The public URL of a stored name. */
  function UploadPath(name: string): string
  {
    "/uploads/" + name
  }

  // ---------------------------------------------------------------------
  // The image-extension test /\.(jpg|jpeg|png|gif|webp)$/i
  // ---------------------------------------------------------------------

  const ImageExtensions: seq<string> := ["jpg", "jpeg", "png", "gif", "webp"]

  /** The name ends, ignoring ASCII case, in a dot and one of the extensions. */
  predicate IsImageName(name: string)
  {
    exists k :: 0 <= k < |ImageExtensions| && EndsWith(ToLower(name), "." + ImageExtensions[k])
  }

  lemma ExtensionsHaveNoDot(k: nat)
    requires k < |ImageExtensions|
    ensures '.' !in ImageExtensions[k]
  {
  }

  lemma DotsSurviveLowering(s: string)
    ensures '.' in ToLower(s) <==> '.' in s
  {
    if '.' in s {
      var j :| 0 <= j < |s| && s[j] == '.';
      assert ToLower(s)[j] == '.';
    }
    if '.' in ToLower(s) {
      var j :| 0 <= j < |s| && ToLower(s)[j] == '.';
      assert s[j] == '.';
    }
  }
  /** Ends, ignoring case, in `.e`: the dot sits right before the last |e| characters. */
  lemma LoweredDotSuffix(name: string, e: string)
    requires EndsWith(ToLower(name), "." + e)
    ensures name[|name| - |e| - 1] == '.' && ToLower(name[|name| - |e|..]) == e
  {
    var m := |name| - |e| - 1;
    var tail := name[m..];
    ghost var low := ToLower(name);
    assert |"." + e| == |e| + 1;
    assert low[m..] == "." + e;
    ToLowerSuffix(name, m);
    assert ToLower(tail) == low[m..];
    assert ToLower(tail)[0] == '.';
    assert tail[0] == '.';
    ToLowerSuffix(tail, 1);
    assert ToLower(tail)[1..] == e;
    assert tail[1..] == name[m + 1..];
  }
  lemma LastDotAt(name: string, m: nat)
    requires m < |name| && name[m] == '.' && '.' !in name[m + 1..]
    ensures '.' in name && AfterLastDot(name) == name[m + 1..]
  {
    LastIndexOfAt(name, '.', m);
  }
  /** Ending in `.e` for a dot-free `e` puts the last dot right before `e`. */
  lemma EndsWithDotted(name: string, e: string)
    requires '.' !in e && EndsWith(ToLower(name), "." + e)
    ensures '.' in name && ToLower(AfterLastDot(name)) == e
  {
    var m := |name| - |e| - 1;
    LoweredDotSuffix(name, e);
    var after := name[m + 1..];
    DotsSurviveLowering(after);
    LastDotAt(name, m);
  }

  lemma DottedEndsWith(name: string)
    requires '.' in name
    ensures EndsWith(ToLower(name), "." + ToLower(AfterLastDot(name)))
  {
    var m := LastIndexOf(name, '.').value;
    var after := name[m + 1..];
    assert AfterLastDot(name) == after;
    assert name[m..] == "." + after;
    ToLowerSuffix(name, m);
    ToLowerAppend(".", after);
    assert ToLower(".") == ".";
    assert ToLower(name)[m..] == "." + ToLower(after);
  }

  /** The regex test is a test on the text after the last dot: the name has a
      dot, and that text, lower-cased, is one of the extensions. */
  lemma ImageNameByExtension(name: string)
    ensures IsImageName(name) <==> '.' in name && ToLower(AfterLastDot(name)) in ImageExtensions
  {
    if IsImageName(name) {
      var k :| 0 <= k < |ImageExtensions| && EndsWith(ToLower(name), "." + ImageExtensions[k]);
      ExtensionsHaveNoDot(k);
      EndsWithDotted(name, ImageExtensions[k]);
    }
    if '.' in name && ToLower(AfterLastDot(name)) in ImageExtensions {
      var e := ToLower(AfterLastDot(name));
      var k :| 0 <= k < |ImageExtensions| && ImageExtensions[k] == e;
      DottedEndsWith(name);
    }
  }

  /** A prefix without dots does not change what follows the last dot. */
  lemma AfterLastDotPrefix(prefix: string, name: string)
    requires '.' !in prefix
    ensures '.' in prefix + name <==> '.' in name
    ensures '.' in name ==> AfterLastDot(prefix + name) == AfterLastDot(name)
  {
    var s := prefix + name;
    if '.' in s {
      var i :| 0 <= i < |s| && s[i] == '.';
      assert name[i - |prefix|] == '.';
    }
    if '.' in name {
      var i := LastIndexOf(name, '.').value;
      assert s[|prefix| + i + 1..] == name[i + 1..];
      LastIndexOfAt(s, '.', |prefix| + i);
    }
  }

  /** A gallery upload is listed exactly when the uploaded name is an image name. */
  lemma PhotoNameIsImageIff(now: nat, filename: string)
    ensures IsImageName(PhotoName(now, filename)) <==> IsImageName(filename)
  {
    var p := NatToString(now) + "-";
    assert PhotoName(now, filename) == p + filename;
    assert '.' !in p by {
      assert forall i :: 0 <= i < |p| - 1 ==> IsDigit(p[i]);
    }
    AfterLastDotPrefix(p, filename);
    ImageNameByExtension(filename);
    ImageNameByExtension(PhotoName(now, filename));
  }

  lemma ToLowerIdempotent(s: string)
    ensures ToLower(ToLower(s)) == ToLower(s)
  {
  }

  /** A cover is listed exactly when its sanitised extension is one of the
      image extensions; in particular every cover uploaded under an image name is. */
  lemma CoverNameIsImageIff(now: nat, filename: string)
    ensures IsImageName(CoverName(now, filename)) <==> SanitizedExtension(filename) in ImageExtensions
    ensures IsImageName(filename) ==> IsImageName(CoverName(now, filename))
  {
    CoverExtension(now, filename);
    ImageNameByExtension(CoverName(now, filename));
    ToLowerIdempotent(AfterLastDot(filename));
    ImageNameByExtension(filename);
  }

  /** The text after a cover name's last dot is the sanitised extension. */
  lemma CoverExtension(now: nat, filename: string)
    ensures '.' in CoverName(now, filename)
    ensures AfterLastDot(CoverName(now, filename)) == SanitizedExtension(filename)
  {
    var p := "event-" + NatToString(now) + "-";
    var r := SanitizeFilename(filename);
    assert CoverName(now, filename) == p + r;
    assert '.' !in p by {
      assert forall i :: 6 <= i < |p| - 1 ==> IsDigit(p[i]);
    }
    SanitizeFilenameShape(filename);
    var k := |SanitizedBase(filename)|;
    assert r[k] == '.';
    assert r[k + 1..] == SanitizedExtension(filename);
    AfterLastDotPrefix(p, r);
  }

  // ---------------------------------------------------------------------
  // getImageTitle (gallery page)
  // ---------------------------------------------------------------------

  /** `.replace(/^\d+-/, "")`: one leading run of digits and the hyphen after it. */
  function StripTimestamp(s: string): string
  {
    var k := DigitRun(s, 10);
    if 0 < k < |s| && s[k] == '-' then s[k + 1..] else s
  }

  /** `getImageTitle`. */
  function ImageTitle(filename: string): string
  {
    StripExtension(StripTimestamp(filename))
  }

  /** A name with neither a timestamp prefix nor an extension is its own title. */
  lemma TitleOfPlainName(s: string)
    requires s == [] || !IsDigit(s[0])
    requires forall i :: !ExtensionAt(s, i)
    ensures ImageTitle(s) == s
  {
    StripExtensionMatchesRegex(s);
  }

  /** Round trip with the gallery upload: the title of `${ts}-${name}` is the
      uploaded name without its extension, whatever that name starts with. */
  lemma TitleOfPhotoName(now: nat, filename: string)
    ensures ImageTitle(PhotoName(now, filename)) == StripExtension(filename)
  {
    var ts := NatToString(now);
    var s := PhotoName(now, filename);
    assert s == ts + ("-" + filename);
    DigitRunPrefix(ts, "-" + filename);
    assert s[|ts| + 1..] == filename;
  }

  /** Cover names do not start with a digit, so their title keeps the
      `event-<ts>-` prefix; the final extension is dropped when it is not empty. */
  lemma TitleOfCoverName(now: nat, filename: string)
    ensures var ext := SanitizedExtension(filename);
      var stem := "event-" + NatToString(now) + "-" + SanitizedBase(filename);
      ImageTitle(CoverName(now, filename)) == if ext != [] && '/' !in ext then stem else CoverName(now, filename)
  {
    var ext, base := SanitizedExtension(filename), SanitizedBase(filename);
    var p := "event-" + NatToString(now) + "-";
    var stem := p + base;
    var s := CoverName(now, filename);
    assert s == p + (base + "." + ext);
    assert s == stem + "." + ext;
    assert s[0] == p[0] == 'e';
    assert DigitRun(s, 10) == 0;
    assert ImageTitle(s) == StripExtension(s);
    DotsSurviveLowering(AfterLastDot(filename));
    StripExtensionOfDotted(stem, ext);
  }
}
