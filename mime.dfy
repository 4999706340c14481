/** The file descriptors the file manager handles. */
module Records {
  import opened Wrappers

  /** A browser `File` as the manager reads it: `name`, `size` in bytes, `type` (may be ""). */
  datatype LocalFile = LocalFile(name: string, size: nat, mimeType: string)

  /** A file held by the cloud storage service: `filename`, `size`, `url`, optional `mimetype`. */
  datatype CloudFile = CloudFile(filename: string, size: nat, url: string, mimetype: Option<string>)
}

/**
 Decisions taken on a MIME type alone: the card icon (`getFileIcon`) and the
 preview fragment of a cloud card (`generatePreview`).
 */
module MimeTypes {
  import opened Wrappers
  import opened Text
  import opened Records

  datatype Icon = Image | Video | Audio | Pdf | Word | Spreadsheet | Folder

  /** The glyph each icon is drawn with. */
  function Glyph(icon: Icon): string
  {
    match icon
    case Image => "🖼️"
    case Video => "🎥"
    case Audio => "🎵"
    case Pdf => "📄"
    case Word => "📝"
    case Spreadsheet => "📊"
    case Folder => "📁"
  }

  /** `getFileIcon(mimeType)`: the first test that holds decides. */
  function FileIcon(mimeType: string): Icon
  {
    if StartsWith(mimeType, "image/") then Image
    else if StartsWith(mimeType, "video/") then Video
    else if StartsWith(mimeType, "audio/") then Audio
    else if Contains(mimeType, "pdf") then Pdf
    else if Contains(mimeType, "word") then Word
    else if Contains(mimeType, "excel") || Contains(mimeType, "spreadsheet") then Spreadsheet
    else Folder
  }

  /** A classification rule: a test on the MIME type and the icon it selects. */
  datatype Test = Prefix(p: string) | Infix(p: string)
  datatype Rule = Rule(test: Test, icon: Icon)

  predicate Holds(t: Test, mimeType: string)
  {
    match t
    case Prefix(p) => StartsWith(mimeType, p)
    case Infix(p) => Contains(mimeType, p)
  }

  /** The icon rules in priority order, as a table. */
  const IconRules: seq<Rule> := [
    Rule(Prefix("image/"), Image),
    Rule(Prefix("video/"), Video),
    Rule(Prefix("audio/"), Audio),
    Rule(Infix("pdf"), Pdf),
    Rule(Infix("word"), Word),
    Rule(Infix("excel"), Spreadsheet),
    Rule(Infix("spreadsheet"), Spreadsheet)
  ]

  /** First-match classification over any rule table; `Folder` when nothing matches. */
  function FirstMatch(rules: seq<Rule>, mimeType: string): Icon
  {
    if rules == [] then Folder
    else if Holds(rules[0].test, mimeType) then rules[0].icon
    else FirstMatch(rules[1..], mimeType)
  }

  /** The first rule that holds decides, whatever later rules say. */
  lemma {:induction false} FirstMatchPicksFirst(rules: seq<Rule>, mimeType: string, i: nat)
    requires i < |rules| && Holds(rules[i].test, mimeType)
    requires forall j :: 0 <= j < i ==> !Holds(rules[j].test, mimeType)
    ensures FirstMatch(rules, mimeType) == rules[i].icon
    decreases i
  {
    if i > 0 {
      FirstMatchPicksFirst(rules[1..], mimeType, i - 1);
    }
  }

  /** With no rule selecting `Folder`, the fallback happens exactly when no rule holds. */
  lemma {:induction false} FirstMatchFallback(rules: seq<Rule>, mimeType: string)
    requires forall j :: 0 <= j < |rules| ==> rules[j].icon != Folder
    ensures FirstMatch(rules, mimeType) == Folder <==>
              forall j :: 0 <= j < |rules| ==> !Holds(rules[j].test, mimeType)
    decreases |rules|
  {
    if rules != [] {
      FirstMatchFallback(rules[1..], mimeType);
      assert forall j :: 1 <= j < |rules| ==> rules[j] == rules[1..][j - 1];
    }
  }

  /** `getFileIcon` is first-match classification over the rule table. */
  lemma FileIconIsFirstMatch(mimeType: string)
    ensures FileIcon(mimeType) == FirstMatch(IconRules, mimeType)
  {
    var r, m := IconRules, mimeType;
    assert FirstMatch(r[7..], m) == Folder;
    assert FirstMatch(r[6..], m) == if Contains(m, "spreadsheet") then Spreadsheet else Folder by {
      assert r[6..][1..] == r[7..];
    }
    assert FirstMatch(r[5..], m) == if Contains(m, "excel") then Spreadsheet else FirstMatch(r[6..], m) by {
      assert r[5..][1..] == r[6..];
    }
    assert FirstMatch(r[4..], m) == if Contains(m, "word") then Word else FirstMatch(r[5..], m) by {
      assert r[4..][1..] == r[5..];
    }
    assert FirstMatch(r[3..], m) == if Contains(m, "pdf") then Pdf else FirstMatch(r[4..], m) by {
      assert r[3..][1..] == r[4..];
    }
    assert FirstMatch(r[2..], m) == if StartsWith(m, "audio/") then Audio else FirstMatch(r[3..], m) by {
      assert r[2..][1..] == r[3..];
    }
    assert FirstMatch(r[1..], m) == if StartsWith(m, "video/") then Video else FirstMatch(r[2..], m) by {
      assert r[1..][1..] == r[2..];
    }
  }

  /** The folder icon falls out exactly when no test holds; every type gets an icon. */
  lemma FileIconFolderIff(mimeType: string)
    ensures FileIcon(mimeType) == Folder <==>
              forall i :: 0 <= i < |IconRules| ==> !Holds(IconRules[i].test, mimeType)
  {
    FileIconIsFirstMatch(mimeType);
    FirstMatchFallback(IconRules, mimeType);
  }

  /** A prefix test fails when the strings differ at some position of the prefix. */
  lemma DiffersAt(s: string, p: string, k: nat)
    requires k < |p| && k < |s| && s[k] != p[k]
    ensures !StartsWith(s, p)
  {
  }

  /** A string lacking one of the characters of `p` does not include `p`. */
  lemma LacksChar(s: string, p: string, c: char)
    requires c in p && c !in s
    ensures !Contains(s, p)
  {
    if Contains(s, p) {
      var i := ContainsWitness(s, p);
    }
  }

  /** No type of the form "application/..." starts with one of the media prefixes. */
  lemma ApplicationIsNoMedia(s: string)
    requires StartsWith(s, "application/")
    ensures !StartsWith(s, "image/") && !StartsWith(s, "video/") && !StartsWith(s, "audio/")
  {
    assert s[..12] == "application/";
    assert s[0] == 'a' && s[1] == 'p';
    DiffersAt(s, "image/", 0);
    DiffersAt(s, "video/", 0);
    DiffersAt(s, "audio/", 1);
  }

  /** A media prefix wins over a later substring test. */
  lemma FileIconPrefixWins()
    ensures FileIcon("image/png") == Image
    ensures FileIcon("image/pdf") == Image
    ensures FileIcon("") == Folder
  {
  }

  /** The PDF and Word document types. */
  lemma FileIconDocuments()
    ensures FileIcon("application/pdf") == Pdf
    ensures FileIcon("application/msword") == Word
  {
    var pdf, doc := "application/pdf", "application/msword";
    assert StartsWith(pdf, "application/") && StartsWith(doc, "application/");
    ApplicationIsNoMedia(pdf);
    ApplicationIsNoMedia(doc);
    ContainsAt(pdf, "pdf", 12);
    ContainsAt(doc, "word", 14);
    LacksChar(doc, "pdf", 'f');
  }

  /** An "application/..." type that includes "excel" or "spreadsheet", and neither "pdf"
      nor "word", gets the spreadsheet icon. */
  lemma ApplicationSpreadsheet(m: string)
    requires StartsWith(m, "application/")
    requires Contains(m, "excel") || Contains(m, "spreadsheet")
    requires !Contains(m, "pdf") && !Contains(m, "word")
    ensures FileIcon(m) == Spreadsheet
  {
    ApplicationIsNoMedia(m);
  }

  /** The "excel" test. */
  lemma FileIconExcel()
    ensures FileIcon("application/vnd.ms-excel") == Spreadsheet
  {
    var app, mid, tail := "application/", "vnd.ms-", "excel";
    var xls := app + mid + tail;
    assert xls[..|app|] == app;
    assert xls[|app + mid|..|app + mid| + |tail|] == tail;
    ContainsAt(xls, tail, |app + mid|);
    assert xls == "application/vnd.ms-excel";
    LacksChar(xls, "pdf", 'f');
    LacksChar(xls, "word", 'w');
    ApplicationSpreadsheet(xls);
  }

  /** The "spreadsheet" test. */
  lemma FileIconSpreadsheet()
    ensures FileIcon("application/" + "vnd.oasis.opendocument." + "spreadsheet") == Spreadsheet
  {
    var app, mid, tail := "application/", "vnd.oasis.opendocument.", "spreadsheet";
    var ods := app + mid + tail;
    assert ods[..|app|] == app;
    assert ods[|app + mid|..|app + mid| + |tail|] == tail;
    ContainsAt(ods, tail, |app + mid|);
    assert 'f' !in app && 'f' !in mid && 'f' !in tail;
    assert 'w' !in app && 'w' !in mid && 'w' !in tail;
    LacksChar(ods, "pdf", 'f');
    LacksChar(ods, "word", 'w');
    ApplicationSpreadsheet(ods);
  }

  /** The preview fragment of a cloud card. */
  datatype Preview = NoPreview | ImagePreview(src: string) | PdfPreview(src: string)

  /** `generatePreview(file)`: an image for `image/...`, an embedded viewer only for exactly
      "application/pdf", nothing for an absent or any other type. */
  function GeneratePreview(file: CloudFile): (r: Preview)
    ensures !r.NoPreview? ==> file.mimetype.Some? && r.src == file.url
  {
    match file.mimetype
    case None => NoPreview
    case Some(m) =>
      // `file.mimetype && ...`: the empty string is falsy, and cannot start with "image/" anyway
      if StartsWith(m, "image/") then ImagePreview(file.url)
      else if m == "application/pdf" then PdfPreview(file.url)
      else NoPreview
  }

  /** Each preview kind happens exactly when its condition holds, and points at the file's URL. */
  lemma GeneratePreviewCases(file: CloudFile)
    ensures GeneratePreview(file).ImagePreview? <==>
              file.mimetype.Some? && StartsWith(file.mimetype.value, "image/")
    ensures GeneratePreview(file).PdfPreview? <==> file.mimetype == Some("application/pdf")
    ensures !GeneratePreview(file).NoPreview? ==> GeneratePreview(file).src == file.url
    ensures file.mimetype.None? ==> GeneratePreview(file) == NoPreview
  {
    if file.mimetype == Some("application/pdf") {
      DiffersAt("application/pdf", "image/", 0);
    }
  }

  /** The icon test for PDF is a substring, the preview test an exact match: a type such as
      "application/x-pdf" gets the PDF icon but no preview. */
  lemma PdfIconWithoutPreview(url: string)
    ensures FileIcon("application/x-pdf") == Pdf
    ensures GeneratePreview(CloudFile("a.pdf", 0, url, Some("application/x-pdf"))) == NoPreview
  {
    assert StartsWith("application/x-pdf", "application/");
    ApplicationIsNoMedia("application/x-pdf");
    ContainsAt("application/x-pdf", "pdf", 14);
    DiffersAt("application/x-pdf", "image/", 0);
  }
}
