/**
 * `extract_message_info` and `main` of the message parser: the message records of one exported page,
 * and of every page of every dialog folder, tagged with the folder's dialog id.
 */
module Messages {
  import opened Base
  import opened Text
  import opened Datetime
  import opened Encoding

  /**
   * One `div.message` of a page as the HTML parser sees it: the text of its `message__header` div if it
   * has one, and the text of each of its direct child divs in document order (texts as `get_text(" ", strip=True)`).
   */
  datatype MessageDiv = MessageDiv(header: Option<string>, children: seq<string>)

  datatype Message = Message(sender: string, datetime: string, text: string)

  /** A header split at its first comma: the sender and the raw date text. */
  datatype Header = Header(sender: string, rawDatetime: string)

  const Placeholder: string := "[attachment]"

  /**
   * With a comma, the stripped text before the first comma and the stripped rest (`split(',', 1)`);
   * without one, the whole header and no date.
   */
  function SplitHeader(h: string): (r: Header)
    ensures ',' !in h ==> r == Header(h, "")
  {
    if ',' in h then
      var k := IndexOf(h, ',');
      Header(Strip(h[..k]), Strip(h[k + 1..]))
    else Header(h, "")
  }

  /** With a comma, the header splits at its first comma and both halves are stripped. */
  lemma SplitHeaderFirstComma(h: string)
    requires ',' in h
    ensures exists k :: (0 <= k < |h| && h[k] == ',' && ',' !in h[..k] &&
      SplitHeader(h) == Header(Strip(h[..k]), Strip(h[k + 1..])))
  {
    var k := IndexOf(h, ',');
    assert SplitHeader(h) == Header(Strip(h[..k]), Strip(h[k + 1..]));
  }

  /** The sender never holds a comma; every comma after the first stays in the date text. */
  lemma SplitHeaderCommas(h: string)
    requires ',' in h
    ensures ',' !in SplitHeader(h).sender
    ensures Count(SplitHeader(h).rawDatetime, ',') + 1 == Count(h, ',')
  {
    var k := IndexOf(h, ',');
    assert h == h[..k] + [','] + h[k + 1..];
    CountAppend(h[..k] + [','], h[k + 1..], ',');
    CountAppend(h[..k], [','], ',');
    assert Count([','], ',') == 1 by { assert [','][..0] == []; }
    StripCount(h[..k], ',');
    StripCount(h[k + 1..], ',');
  }

  /** The message text: the child divs after the first, joined by spaces, or the placeholder when that is empty. */
  function Body(children: seq<string>): (t: string)
    ensures t != ""
    ensures (|children| <= 1 || (|children| == 2 && children[1] == "")) ==> t == Placeholder
    ensures !(|children| <= 1 || (|children| == 2 && children[1] == "")) ==> t == JoinSpace(children[1..])
  {
    var body := if |children| > 1 then JoinSpace(children[1..]) else "";
    if body == "" then Placeholder else body
  }

  predicate HasHeader(d: MessageDiv) {
    d.header.Some?
  }

  /** The record of one headed div; the date text is normalised only when there is one. */
  function MessageOf(d: MessageDiv): (m: Message)
    requires HasHeader(d)
    ensures m.sender == SplitHeader(d.header.value).sender
    ensures m.datetime == "" <==> SplitHeader(d.header.value).rawDatetime == ""
    ensures m.datetime == SplitHeader(d.header.value).rawDatetime || IsIsoTimestamp(m.datetime)
    ensures SplitHeader(d.header.value).rawDatetime != "" ==>
      m.datetime == NormalizeDatetime(SplitHeader(d.header.value).rawDatetime)
    ensures m.text == Body(d.children)
  {
    var h := SplitHeader(d.header.value);
    var datetime := if h.rawDatetime != "" then NormalizeDatetime(h.rawDatetime) else "";
    Message(h.sender, datetime, Body(d.children))
  }

  /** The records of a page: one per headed message div, in document order; a div without a header gives none. */
  function Extracted(divs: seq<MessageDiv>): (ms: seq<Message>)
    ensures |ms| == |Filter(divs, HasHeader)|
    ensures forall k :: 0 <= k < |ms| ==> ms[k] == MessageOf(Filter(divs, HasHeader)[k])
  {
    if divs == [] then []
    else
      var last := divs[|divs| - 1];
      Extracted(divs[..|divs| - 1]) + (if HasHeader(last) then [MessageOf(last)] else [])
  }

  lemma ExtractedSnoc(divs: seq<MessageDiv>, d: MessageDiv)
    ensures Extracted(divs + [d]) == Extracted(divs) + (if HasHeader(d) then [MessageOf(d)] else [])
  {
    assert (divs + [d])[..|divs|] == divs;
  }

  /** `extract_message_info` on the parsed message divs of one page. */
  method ExtractMessageInfo(divs: seq<MessageDiv>) returns (messages: seq<Message>)
    ensures messages == Extracted(divs)
  {
    messages := [];
    var i := 0;
    while i < |divs|
      invariant 0 <= i <= |divs|
      invariant messages == Extracted(divs[..i])
    {
      var msg := divs[i];
      assert divs[..i + 1] == divs[..i] + [msg];
      ExtractedSnoc(divs[..i], msg);
      if HasHeader(msg) {
        messages := messages + [MessageOf(msg)];
      }
      i := i + 1;
    }
    assert divs[..i] == divs;
  }

  // ---------------------------------------------------------------------------
  // The traversal of the export folder

  datatype HtmlFile = HtmlFile(name: string, content: Bytes)

  /** One step of the folder walk: a folder's path relative to the export root, and the files in it. */
  datatype Folder = Folder(relPath: string, files: seq<HtmlFile>)

  datatype Record = Record(dialogId: string, sender: string, datetime: string, text: string)

  /**
   * What the pipeline calls but does not define: the encoding detector, the two decoders of
   * `decode_file_content` and the HTML parser that yields the message divs of a page.
   */
  datatype Tools = Tools(detect: Bytes -> Detection, decode: (Bytes, string) -> Option<string>,
                         decodeReplace: Bytes -> string, parse: string -> seq<MessageDiv>)

  /**
   * The relative path with path separators stripped from both ends; "." is the export root.
   * Paths are written with the POSIX separator `/`, which stands for `os.sep`.
   */
  function DialogId(f: Folder): string {
    StripChar(f.relPath, '/')
  }

  predicate IsHtml(f: HtmlFile) {
    EndsWith(f.name, ".html")
  }

  const ByName := (x: HtmlFile, y: HtmlFile) => LexLe(x.name, y.name)

  lemma ByNameTotal()
    ensures TotalPreorder(ByName)
  {
    forall a: HtmlFile, b: HtmlFile ensures ByName(a, b) || ByName(b, a) {
      LexLeTotal(a.name, b.name);
    }
    forall a: HtmlFile, b: HtmlFile, c: HtmlFile | ByName(a, b) && ByName(b, c) ensures ByName(a, c) {
      LexLeTransitive(a.name, b.name, c.name);
    }
  }

  function SortedFiles(files: seq<HtmlFile>): seq<HtmlFile> {
    ByNameTotal();
    SortBy(files, ByName)
  }

  /** The files of a folder that are read: the `.html` ones, in name order. */
  function HtmlFiles(files: seq<HtmlFile>): seq<HtmlFile> {
    Filter(SortedFiles(files), IsHtml)
  }

  /** Only `.html` files are read, each exactly as often as it occurs, in name order. */
  lemma HtmlFilesSpec(files: seq<HtmlFile>, f: HtmlFile)
    ensures SortedBy(HtmlFiles(files), ByName)
    ensures forall k :: 0 <= k < |HtmlFiles(files)| ==> IsHtml(HtmlFiles(files)[k])
    ensures Count(HtmlFiles(files), f) == if IsHtml(f) then Count(files, f) else 0
  {
    ByNameTotal();
    FilterSorted(SortedFiles(files), IsHtml, ByName);
    FilterCount(SortedFiles(files), IsHtml, f);
    CountMultiset(SortedFiles(files), f);
    CountMultiset(files, f);
  }

  function Tag(dialog: string, m: Message): Record {
    Record(dialog, m.sender, m.datetime, m.text)
  }

  function Tagged(dialog: string, ms: seq<Message>): seq<Record> {
    seq(|ms|, k requires 0 <= k < |ms| => Tag(dialog, ms[k]))
  }

  /** The records of one page: its messages tagged with the dialog id. */
  function FileRecords(dialog: string, file: HtmlFile, tools: Tools): seq<Record> {
    var html := DecodedContent(file.content, tools.detect, tools.decode, tools.decodeReplace);
    Tagged(dialog, Extracted(tools.parse(html)))
  }

  function FilesRecords(dialog: string, files: seq<HtmlFile>, tools: Tools): seq<Record> {
    if files == [] then []
    else FilesRecords(dialog, files[..|files| - 1], tools) + FileRecords(dialog, files[|files| - 1], tools)
  }

  /** The records of one folder; the export root itself contributes none. */
  function FolderRecords(f: Folder, tools: Tools): seq<Record> {
    if DialogId(f) == "." then [] else FilesRecords(DialogId(f), HtmlFiles(f.files), tools)
  }

  /** The records of a whole walk, concatenated in walk order. */
  function WalkRecords(walk: seq<Folder>, tools: Tools): seq<Record> {
    if walk == [] then []
    else WalkRecords(walk[..|walk| - 1], tools) + FolderRecords(walk[|walk| - 1], tools)
  }

  /** `main` up to the CSV writer: the folders of the walk, in walk order, become one list of records. */
  method ParseAll(walk: seq<Folder>, tools: Tools) returns (all: seq<Record>)
    ensures all == WalkRecords(walk, tools)
  {
    all := [];
    var i := 0;
    while i < |walk|
      invariant 0 <= i <= |walk|
      invariant all == WalkRecords(walk[..i], tools)
    {
      WalkRecordsStep(walk, i, tools);
      var records := ParseFolder(walk[i], tools);
      all := all + records;
      i := i + 1;
    }
    assert walk[..i] == walk;
  }

  /** One folder of the walk: skipped when it is the export root, otherwise its files in name order. */
  method ParseFolder(folder: Folder, tools: Tools) returns (records: seq<Record>)
    ensures records == FolderRecords(folder, tools)
  {
    var dialogId := StripChar(folder.relPath, '/');
    if dialogId == "." {
      return [];
    }
    records := ParseFiles(dialogId, SortedFiles(folder.files), tools);
  }

  /** The inner loop of `main`: the files of one folder, already sorted by name; those not ending in `.html` are skipped. */
  method ParseFiles(dialogId: string, files: seq<HtmlFile>, tools: Tools) returns (records: seq<Record>)
    ensures records == FilesRecords(dialogId, Filter(files, IsHtml), tools)
  {
    records := [];
    var j := 0;
    while j < |files|
      invariant 0 <= j <= |files|
      invariant records == FilesRecords(dialogId, Filter(files[..j], IsHtml), tools)
    {
      var file := files[j];
      FilesRecordsStep(dialogId, files, j, tools);
      if IsHtml(file) {
        var html := DecodeFileContent(file.content, tools.detect, tools.decode, tools.decodeReplace);
        var messages := ExtractMessageInfo(tools.parse(html));
        var tagged := TagAll(dialogId, messages);
        assert tagged == FileRecords(dialogId, file, tools);
        records := records + tagged;
      }
      j := j + 1;
    }
    assert files[..j] == files;
  }

  /** One more file of the folder adds its records when it is a page, and nothing otherwise. */
  lemma FilesRecordsStep(dialog: string, files: seq<HtmlFile>, j: nat, tools: Tools)
    requires j < |files|
    ensures FilesRecords(dialog, Filter(files[..j + 1], IsHtml), tools) ==
      FilesRecords(dialog, Filter(files[..j], IsHtml), tools) + (if IsHtml(files[j]) then FileRecords(dialog, files[j], tools) else [])
  {
    var file := files[j];
    var before := Filter(files[..j], IsHtml);
    assert files[..j + 1] == files[..j] + [file];
    FilterSnoc(files[..j], file, IsHtml);
    if IsHtml(file) {
      assert Filter(files[..j + 1], IsHtml) == before + [file];
      FilesRecordsSnoc(dialog, before, file, tools);
    } else {
      assert Filter(files[..j + 1], IsHtml) == before;
    }
  }

  lemma WalkRecordsSnoc(walk: seq<Folder>, f: Folder, tools: Tools)
    ensures WalkRecords(walk + [f], tools) == WalkRecords(walk, tools) + FolderRecords(f, tools)
  {
    assert (walk + [f])[..|walk|] == walk;
  }

  /** One more folder of the walk adds its records. */
  lemma WalkRecordsStep(walk: seq<Folder>, i: nat, tools: Tools)
    requires i < |walk|
    ensures WalkRecords(walk[..i + 1], tools) == WalkRecords(walk[..i], tools) + FolderRecords(walk[i], tools)
  {
    assert walk[..i + 1] == walk[..i] + [walk[i]];
    WalkRecordsSnoc(walk[..i], walk[i], tools);
  }

  /** The loop that sets `dialog_id` on every message of a page. */
  method TagAll(dialog: string, messages: seq<Message>) returns (tagged: seq<Record>)
    ensures tagged == Tagged(dialog, messages)
  {
    tagged := [];
    var k := 0;
    while k < |messages|
      invariant 0 <= k <= |messages|
      invariant tagged == Tagged(dialog, messages[..k])
    {
      tagged := tagged + [Tag(dialog, messages[k])];
      k := k + 1;
    }
    assert messages[..k] == messages;
  }

  lemma FilesRecordsSnoc(dialog: string, files: seq<HtmlFile>, f: HtmlFile, tools: Tools)
    ensures FilesRecords(dialog, files + [f], tools) == FilesRecords(dialog, files, tools) + FileRecords(dialog, f, tools)
  {
    assert (files + [f])[..|files|] == files;
  }

  /** Every record of a page's files carries the folder's dialog id and a non-empty text. */
  lemma {:induction false} FilesRecordsTagged(dialog: string, files: seq<HtmlFile>, tools: Tools)
    ensures forall r :: r in FilesRecords(dialog, files, tools) ==> r.dialogId == dialog && r.text != ""
  {
    if files != [] {
      FilesRecordsTagged(dialog, files[..|files| - 1], tools);
    }
  }

  /**
   * No record is tagged with the export root, every record's dialog id is that of a folder of the walk,
   * and no record has an empty text.
   */
  lemma {:induction false} WalkRecordsTagged(walk: seq<Folder>, tools: Tools)
    ensures forall r :: r in WalkRecords(walk, tools) ==>
      r.dialogId != "." && r.text != "" && exists i :: 0 <= i < |walk| && DialogId(walk[i]) == r.dialogId
  {
    if walk != [] {
      var init := walk[..|walk| - 1];
      var f := walk[|walk| - 1];
      WalkRecordsTagged(init, tools);
      FilesRecordsTagged(DialogId(f), HtmlFiles(f.files), tools);
      forall r | r in WalkRecords(walk, tools)
        ensures r.dialogId != "." && r.text != "" && exists i :: 0 <= i < |walk| && DialogId(walk[i]) == r.dialogId
      {
        if r in WalkRecords(init, tools) {
          var i :| 0 <= i < |init| && DialogId(init[i]) == r.dialogId;
          assert walk[i] == init[i];
        } else {
          assert r in FolderRecords(f, tools);
          assert walk[|walk| - 1] == f;
        }
      }
    }
  }
}
