/** The chat data layer (src/lib/livechat.ts): message payloads, the
    reaction toggle, the reaction query guard and attachment uploads. The
    database and the storage bucket are parameters or a modelled table. */
module LiveChat {
  import opened Base
  import opened Strings

  // ---------------------------------------------------------------------
  // Attachments
  // ---------------------------------------------------------------------

  datatype AttachmentKind = Image | Pdf | Audio | OtherFile

  function KindName(k: AttachmentKind): string {
    match k
    case Image => "image"
    case Pdf => "pdf"
    case Audio => "audio"
    case OtherFile => "file"
  }

  datatype Attachment = Attachment(url: string, name: string, size: int, mime: string, kind: AttachmentKind)

  const MAX_MB: int := 8
  const MAX_BYTES: int := MAX_MB * 1024 * 1024

  const BLOCKED_EXTENSIONS: seq<string> :=
    [".svg", ".exe", ".dll", ".bat", ".sh", ".js", ".php", ".py", ".jar", ".com", ".msi", ".cmd"]

  datatype UploadError = TooLarge | BlockedExtension | NotAllowedType | StorageFailed(message: string)

  function UploadMessage(e: UploadError): string {
    match e
    case TooLarge => "File terlalu besar. Max " + NatToString(MAX_MB) + "MB"
    case BlockedExtension => "Tipe file tidak diizinkan."
    case NotAllowedType => "Hanya boleh upload gambar, pdf, atau audio."
    case StorageFailed(m) => m
  }

  /** `file.name || "file"`. */
  function FileName(raw: string): (r: string)
    ensures r != []
    ensures raw != [] ==> r == raw
  {
    if raw == [] then "file" else raw
  }

  predicate IsBlocked(lowerName: string) {
    exists i :: 0 <= i < |BLOCKED_EXTENSIONS| && EndsWith(lowerName, BLOCKED_EXTENSIONS[i])
  }

  predicate IsImageMime(mime: string) { StartsWith(mime, "image/") }
  predicate IsPdfMime(mime: string) { mime == "application/pdf" }
  /** `startsWith("audio/")`; the two extra equalities of the source are
      covered by it. */
  predicate IsAudioMime(mime: string) { StartsWith(mime, "audio/") || mime == "audio/webm" || mime == "audio/ogg" }

  /** `lowerName.split(".").pop() || "bin"`. */
  function Extension(lowerName: string): string {
    var last := LastPiece(lowerName, '.');
    if last == "" then "bin" else last
  }

  /** The last piece is empty exactly for an empty name or one ending in
      a dot, so "bin" is used only then. */
  lemma EmptyPieceIffTrailingDot(lowerName: string)
    ensures LastPiece(lowerName, '.') == "" <==> lowerName == "" || lowerName[|lowerName| - 1] == '.'
  {
    var last := LastPiece(lowerName, '.');
    LastPieceMaximal(lowerName, '.');
    if last != "" {
      assert last[|last| - 1] == lowerName[|lowerName| - 1];
    }
  }

  /** A name without a dot is its own extension. */
  lemma ExtensionWithoutDot(lowerName: string)
    requires '.' !in lowerName && lowerName != ""
    ensures Extension(lowerName) == lowerName
  {
    LastPieceWithoutSep(lowerName, '.');
  }

  /** Otherwise the extension is the dot-free text after the last dot. */
  lemma ExtensionAfterLastDot(lowerName: string)
    requires LastPiece(lowerName, '.') != ""
    ensures var ext := Extension(lowerName);
      && '.' !in ext && EndsWith(lowerName, ext)
      && (ext == lowerName || lowerName[|lowerName| - |ext| - 1] == '.')
  {
    LastPieceMaximal(lowerName, '.');
  }

  /** What passed the checks of `uploadAttachment`. */
  datatype UploadPlan = UploadPlan(name: string, mime: string, size: int, kind: AttachmentKind, ext: string)

  /** The checks of `uploadAttachment`, in their order: size, blocked
      extension (before any MIME check), MIME allowlist. */
  function CheckUpload(mime: string, rawName: string, size: int): (r: Result<UploadPlan, UploadError>)
    ensures r == Err(TooLarge) <==> size > MAX_BYTES
    ensures r == Err(BlockedExtension) <==> size <= MAX_BYTES && IsBlocked(Lower(FileName(rawName)))
    ensures r == Err(NotAllowedType) <==>
      size <= MAX_BYTES && !IsBlocked(Lower(FileName(rawName)))
      && !IsImageMime(mime) && !IsPdfMime(mime) && !IsAudioMime(mime)
    ensures r.Ok? ==> r.value.name == FileName(rawName) && r.value.mime == mime && r.value.size == size
    ensures r.Ok? ==> r.value.kind != OtherFile
    ensures r.Ok? ==> (r.value.kind == Image <==> IsImageMime(mime))
    ensures r.Ok? ==> (r.value.kind == Pdf <==> IsPdfMime(mime))
    ensures r.Ok? ==> (r.value.kind == Audio <==> StartsWith(mime, "audio/"))
    ensures r.Ok? ==> r.value.ext == Extension(Lower(FileName(rawName)))
  {
    var name := FileName(rawName);
    var lowerName := Lower(name);
    if size > MAX_BYTES then Err(TooLarge)
    else if IsBlocked(lowerName) then Err(BlockedExtension)
    else if !IsImageMime(mime) && !IsPdfMime(mime) && !IsAudioMime(mime) then Err(NotAllowedType)
    else
      Ok(UploadPlan(name, mime, size, KindFor(mime), Extension(lowerName)))
  }

  /** The attachment kind of an allowed MIME type: image, then PDF, then audio. */
  function KindFor(mime: string): (k: AttachmentKind)
    requires IsImageMime(mime) || IsPdfMime(mime) || IsAudioMime(mime)
    ensures k != OtherFile
    ensures k == Image <==> IsImageMime(mime)
    ensures k == Pdf <==> IsPdfMime(mime)
    ensures k == Audio <==> StartsWith(mime, "audio/")
  {
    PdfIsNeitherImageNorAudio();
    if IsImageMime(mime) then Image else if IsPdfMime(mime) then Pdf else Audio
  }

  lemma PdfIsNeitherImageNorAudio()
    ensures !IsImageMime("application/pdf") && !StartsWith("application/pdf", "audio/")
  {
    assert "application/pdf"[..6] == "applic";
  }

  /** An SVG is refused as a blocked extension even though its MIME type is
      an image type. */
  lemma SvgRefusedFirst(size: int)
    requires size <= MAX_BYTES
    ensures CheckUpload("image/svg+xml", "logo.svg", size) == Err(BlockedExtension)
  {
    var lowerName := Lower("logo.svg");
    assert lowerName == "logo.svg";
    assert EndsWith(lowerName, BLOCKED_EXTENSIONS[0]);
  }

  /** The storage path `${room}/${user_id}/${stamp}.${ext}`; the stamp is the
      clock reading and a random token, both inputs here. */
  function UploadPath(room: string, userId: string, now: nat, token: string, ext: string): (r: string)
    ensures StartsWith(r, room + "/" + userId + "/")
    ensures EndsWith(r, "." + ext)
  {
    var prefix := room + "/" + userId + "/";
    var r := prefix + NatToString(now) + "_" + token + "." + ext;
    assert r == prefix + (NatToString(now) + "_" + token + "." + ext);
    assert r == (prefix + NatToString(now) + "_" + token) + ("." + ext);
    r
  }

  /** `uploadAttachment`: the checks, then the upload (`upload` gives the
      storage error, if any), then the public URL of the stored path. */
  function UploadAttachment(mime: string, rawName: string, size: int, userId: string, room: string,
                            now: nat, token: string,
                            upload: string -> Option<string>, publicUrl: string -> string): (r: Result<Attachment, UploadError>)
    ensures CheckUpload(mime, rawName, size).Err? ==> r == Err(CheckUpload(mime, rawName, size).error)
    ensures r.Ok? <==> (CheckUpload(mime, rawName, size).Ok?
      && upload(UploadPath(room, userId, now, token, CheckUpload(mime, rawName, size).value.ext)).None?)
    ensures r.Ok? ==> var plan := CheckUpload(mime, rawName, size).value;
      r.value == Attachment(publicUrl(UploadPath(room, userId, now, token, plan.ext)), plan.name, size, mime, plan.kind)
  {
    match CheckUpload(mime, rawName, size)
    case Err(e) => Err(e)
    case Ok(plan) =>
      var path := UploadPath(room, userId, now, token, plan.ext);
      match upload(path)
      case Some(message) => Err(StorageFailed(message))
      case None => Ok(Attachment(publicUrl(path), plan.name, plan.size, plan.mime, plan.kind))
  }

  // ---------------------------------------------------------------------
  // sendMessage
  // ---------------------------------------------------------------------

  datatype Role = User | Admin

  function RoleName(r: Role): string {
    match r
    case User => "user"
    case Admin => "admin"
  }

  /** The `opts` object: whether it has the key `reply_to_id` at all, the
      reply fields (None for missing or null) and the attachment (None for
      missing or null). */
  datatype SendOptions = SendOptions(
    hasReplyKey: bool,
    replyId: Option<int>,
    replyName: Option<string>,
    replyContent: Option<string>,
    attachment: Option<Attachment>)

  function NumOrNull(v: Option<int>): Json {
    match v
    case None => JNull
    case Some(n) => JNum(n)
  }

  function StrOrNull(v: Option<string>): Json {
    match v
    case None => JNull
    case Some(s) => JStr(s)
  }

  /** The columns of `chat_messages` an insert can name. */
  datatype Column =
    | RoomColumn | SenderIdColumn | SenderRoleColumn | SenderNameColumn | ContentColumn
    | ReplyIdColumn | ReplyNameColumn | ReplyContentColumn
    | UrlColumn | NameColumn | SizeColumn | MimeColumn | TypeColumn

  function ColumnName(c: Column): string {
    match c
    case RoomColumn => "room"
    case SenderIdColumn => "sender_id"
    case SenderRoleColumn => "sender_role"
    case SenderNameColumn => "sender_name"
    case ContentColumn => "content"
    case ReplyIdColumn => "reply_to_id"
    case ReplyNameColumn => "reply_to_name"
    case ReplyContentColumn => "reply_to_content"
    case UrlColumn => "attachment_url"
    case NameColumn => "attachment_name"
    case SizeColumn => "attachment_size"
    case MimeColumn => "attachment_mime"
    case TypeColumn => "attachment_type"
  }

  const BASE_COLUMNS: set<Column> := {RoomColumn, SenderIdColumn, SenderRoleColumn, SenderNameColumn, ContentColumn}
  const REPLY_COLUMNS: set<Column> := {ReplyIdColumn, ReplyNameColumn, ReplyContentColumn}
  const ATTACHMENT_COLUMNS: set<Column> := {UrlColumn, NameColumn, SizeColumn, MimeColumn, TypeColumn}

  /** A stored chat row as read back: a column the insert left out reads as
      null, like one set to null. */
  datatype StoredMessage = StoredMessage(
    room: string, senderId: string, senderRole: string, senderName: string, content: string,
    replyId: Option<int>, replyName: Option<string>, replyContent: Option<string>,
    attachment: Option<Attachment>)

  function ColumnStr(payload: map<Column, Json>, c: Column): Option<string> {
    if c in payload && payload[c].JStr? then Some(payload[c].s) else None
  }

  function ColumnNum(payload: map<Column, Json>, c: Column): Option<int> {
    if c in payload && payload[c].JNum? then Some(payload[c].n) else None
  }

  lemma KindRoundTrip(k: AttachmentKind)
    ensures KindOf(KindName(k)) == Some(k)
  {
  }

  /** The kind a stored `type` text names; only the four names are read,
      and a kind read back prints as the text it came from. */
  function KindOf(name: string): (r: Option<AttachmentKind>)
    ensures r.Some? ==> KindName(r.value) == name
    ensures r.None? <==> name !in {"image", "pdf", "audio", "file"}
  {
    if name == "image" then Some(Image)
    else if name == "pdf" then Some(Pdf)
    else if name == "audio" then Some(Audio)
    else if name == "file" then Some(OtherFile)
    else None
  }

  function AttachmentOf(payload: map<Column, Json>): Option<Attachment> {
    var url, name, size := ColumnStr(payload, UrlColumn), ColumnStr(payload, NameColumn), ColumnNum(payload, SizeColumn);
    var mime, kind := ColumnStr(payload, MimeColumn), ColumnStr(payload, TypeColumn);
    if url.Some? && name.Some? && size.Some? && mime.Some? && kind.Some? && KindOf(kind.value).Some?
    then Some(Attachment(url.value, name.value, size.value, mime.value, KindOf(kind.value).value))
    else None
  }

  function ReadBack(payload: map<Column, Json>): StoredMessage {
    StoredMessage(
      ColumnStr(payload, RoomColumn).GetOr(""), ColumnStr(payload, SenderIdColumn).GetOr(""),
      ColumnStr(payload, SenderRoleColumn).GetOr(""), ColumnStr(payload, SenderNameColumn).GetOr(""),
      ColumnStr(payload, ContentColumn).GetOr(""),
      ColumnNum(payload, ReplyIdColumn), ColumnStr(payload, ReplyNameColumn), ColumnStr(payload, ReplyContentColumn),
      AttachmentOf(payload))
  }

  function BasePayload(room: string, senderId: string, role: Role, senderName: string, content: string)
    : map<Column, Json>
  {
    map[RoomColumn := JStr(room), SenderIdColumn := JStr(senderId), SenderRoleColumn := JStr(RoleName(role)),
        SenderNameColumn := JStr(senderName), ContentColumn := JStr(content)]
  }

  lemma ReadBackBase(room: string, senderId: string, role: Role, senderName: string, content: string)
    ensures ReadBack(BasePayload(room, senderId, role, senderName, content)) ==
      StoredMessage(room, senderId, RoleName(role), senderName, content, None, None, None, None)
    ensures BasePayload(room, senderId, role, senderName, content).Keys == BASE_COLUMNS
  {
  }

  /** Setting the three reply columns shows up as exactly those fields. */
  lemma ReadBackReply(p: map<Column, Json>, id: Option<int>, name: Option<string>, text: Option<string>)
    ensures ReadBack(p[ReplyIdColumn := NumOrNull(id)][ReplyNameColumn := StrOrNull(name)][ReplyContentColumn := StrOrNull(text)])
      == ReadBack(p).(replyId := id, replyName := name, replyContent := text)
  {
    var p1 := p[ReplyIdColumn := NumOrNull(id)];
    var p2 := p1[ReplyNameColumn := StrOrNull(name)];
    ReadBackReplyId(p, id);
    ReadBackReplyName(p1, name);
    ReadBackReplyContent(p2, text);
  }

  lemma ReadBackReplyId(p: map<Column, Json>, id: Option<int>)
    ensures ReadBack(p[ReplyIdColumn := NumOrNull(id)]) == ReadBack(p).(replyId := id)
  {
    assert AttachmentOf(p[ReplyIdColumn := NumOrNull(id)]) == AttachmentOf(p);
  }

  lemma ReadBackReplyName(p: map<Column, Json>, name: Option<string>)
    ensures ReadBack(p[ReplyNameColumn := StrOrNull(name)]) == ReadBack(p).(replyName := name)
  {
    assert AttachmentOf(p[ReplyNameColumn := StrOrNull(name)]) == AttachmentOf(p);
  }

  lemma ReadBackReplyContent(p: map<Column, Json>, text: Option<string>)
    ensures ReadBack(p[ReplyContentColumn := StrOrNull(text)]) == ReadBack(p).(replyContent := text)
  {
    assert AttachmentOf(p[ReplyContentColumn := StrOrNull(text)]) == AttachmentOf(p);
  }

  /** Setting the five attachment columns shows up as the attachment. */
  lemma ReadBackAttachment(p: map<Column, Json>, a: Attachment)
    ensures ReadBack(p[UrlColumn := JStr(a.url)][NameColumn := JStr(a.name)][SizeColumn := JNum(a.size)]
                      [MimeColumn := JStr(a.mime)][TypeColumn := JStr(KindName(a.kind))])
      == ReadBack(p).(attachment := Some(a))
  {
    var p1 := p[UrlColumn := JStr(a.url)];
    var p2 := p1[NameColumn := JStr(a.name)];
    var p3 := p2[SizeColumn := JNum(a.size)];
    var p4 := p3[MimeColumn := JStr(a.mime)];
    var p5 := p4[TypeColumn := JStr(KindName(a.kind))];
    SetAttachmentColumn(p, UrlColumn, JStr(a.url));
    SetAttachmentColumn(p1, NameColumn, JStr(a.name));
    SetAttachmentColumn(p2, SizeColumn, JNum(a.size));
    SetAttachmentColumn(p3, MimeColumn, JStr(a.mime));
    SetAttachmentColumn(p4, TypeColumn, JStr(KindName(a.kind)));
    AttachmentWritten(p, a);
  }

  lemma AttachmentWritten(p: map<Column, Json>, a: Attachment)
    ensures AttachmentOf(p[UrlColumn := JStr(a.url)][NameColumn := JStr(a.name)][SizeColumn := JNum(a.size)]
                         [MimeColumn := JStr(a.mime)][TypeColumn := JStr(KindName(a.kind))]) == Some(a)
  {
    KindRoundTrip(a.kind);
  }

  /** An attachment column written changes nothing but the attachment. */
  lemma SetAttachmentColumn(p: map<Column, Json>, c: Column, v: Json)
    requires c in ATTACHMENT_COLUMNS
    ensures ReadBack(p[c := v]) == ReadBack(p).(attachment := AttachmentOf(p[c := v]))
  {
    var q := p[c := v];
    ColumnApart(p, c, v, RoomColumn);
    ColumnApart(p, c, v, SenderIdColumn);
    ColumnApart(p, c, v, SenderRoleColumn);
    ColumnApart(p, c, v, SenderNameColumn);
    ColumnApart(p, c, v, ContentColumn);
    ColumnApart(p, c, v, ReplyIdColumn);
    ColumnApart(p, c, v, ReplyNameColumn);
    ColumnApart(p, c, v, ReplyContentColumn);
  }

  lemma ColumnApart(p: map<Column, Json>, c: Column, v: Json, d: Column)
    requires c != d
    ensures ColumnStr(p[c := v], d) == ColumnStr(p, d) && ColumnNum(p[c := v], d) == ColumnNum(p, d)
  {
  }

  lemma KeysReply(p: map<Column, Json>, id: Option<int>, name: Option<string>, text: Option<string>)
    ensures (p[ReplyIdColumn := NumOrNull(id)][ReplyNameColumn := StrOrNull(name)][ReplyContentColumn := StrOrNull(text)]).Keys
      == p.Keys + REPLY_COLUMNS
  {
  }

  lemma KeysAttachment(p: map<Column, Json>, a: Attachment)
    ensures (p[UrlColumn := JStr(a.url)][NameColumn := JStr(a.name)][SizeColumn := JNum(a.size)]
               [MimeColumn := JStr(a.mime)][TypeColumn := JStr(KindName(a.kind))]).Keys
      == p.Keys + ATTACHMENT_COLUMNS
  {
  }

  /** The columns and the read-back row of the payload for a message. */
  predicate PayloadFor(payload: map<Column, Json>, room: string, senderId: string, role: Role,
                       senderName: string, content: string, opts: Option<SendOptions>)
    ensures PayloadFor(payload, room, senderId, role, senderName, content, opts) ==>
      BASE_COLUMNS <= payload.Keys &&
      ReadBack(payload).room == room && ReadBack(payload).senderId == senderId &&
      ReadBack(payload).senderRole == RoleName(role) && ReadBack(payload).content == content
    ensures PayloadFor(payload, room, senderId, role, senderName, content, opts) && opts.None? ==>
      payload.Keys == BASE_COLUMNS && ReadBack(payload).attachment.None? && ReadBack(payload).replyId.None?
  {
    && payload.Keys ==
      BASE_COLUMNS
      + (if opts.Some? && opts.value.hasReplyKey then REPLY_COLUMNS else {})
      + (if opts.Some? && opts.value.attachment.Some? then ATTACHMENT_COLUMNS else {})
    && var replies := opts.Some? && opts.value.hasReplyKey;
      ReadBack(payload) == StoredMessage(
        room, senderId, RoleName(role), senderName, content,
        if replies then opts.value.replyId else None,
        if replies then opts.value.replyName else None,
        if replies then opts.value.replyContent else None,
        if opts.Some? then opts.value.attachment else None)
  }

  /** The payload `sendMessage` inserts, built field by field. Reading the
      row back gives the reply fields exactly when `opts` names
      `reply_to_id`, and the attachment exactly when one is given. */
  method BuildPayload(room: string, senderId: string, role: Role, senderName: string, content: string,
                      opts: Option<SendOptions>) returns (payload: map<Column, Json>)
    ensures PayloadFor(payload, room, senderId, role, senderName, content, opts)
  {
    payload := BasePayload(room, senderId, role, senderName, content);
    ReadBackBase(room, senderId, role, senderName, content);
    ghost var expected := StoredMessage(room, senderId, RoleName(role), senderName, content, None, None, None, None);
    ghost var keys := BASE_COLUMNS;
    if opts.Some? && opts.value.hasReplyKey {
      ReadBackReply(payload, opts.value.replyId, opts.value.replyName, opts.value.replyContent);
      KeysReply(payload, opts.value.replyId, opts.value.replyName, opts.value.replyContent);
      payload := payload[ReplyIdColumn := NumOrNull(opts.value.replyId)];
      payload := payload[ReplyNameColumn := StrOrNull(opts.value.replyName)];
      payload := payload[ReplyContentColumn := StrOrNull(opts.value.replyContent)];
      expected := expected.(replyId := opts.value.replyId, replyName := opts.value.replyName,
                            replyContent := opts.value.replyContent);
      keys := keys + REPLY_COLUMNS;
    }
    assert ReadBack(payload) == expected && payload.Keys == keys;
    if opts.Some? && opts.value.attachment.Some? {
      var a := opts.value.attachment.value;
      ReadBackAttachment(payload, a);
      KeysAttachment(payload, a);
      payload := payload[UrlColumn := JStr(a.url)];
      payload := payload[NameColumn := JStr(a.name)];
      payload := payload[SizeColumn := JNum(a.size)];
      payload := payload[MimeColumn := JStr(a.mime)];
      payload := payload[TypeColumn := JStr(KindName(a.kind))];
      expected := expected.(attachment := Some(a));
      keys := keys + ATTACHMENT_COLUMNS;
    }
    assert ReadBack(payload) == expected && payload.Keys == keys;
  }

  /** `sendMessage`: the insert's error, if any, is thrown to the caller. */
  method SendMessage(room: string, senderId: string, role: Role, senderName: string, content: string,
                     opts: Option<SendOptions>, insert: map<Column, Json> -> Option<string>)
    returns (payload: map<Column, Json>, r: Result<(), string>)
    ensures r.Err? <==> insert(payload).Some?
    ensures r.Err? ==> r.error == insert(payload).value
    ensures PayloadFor(payload, room, senderId, role, senderName, content, opts)
  {
    payload := BuildPayload(room, senderId, role, senderName, content, opts);
    match insert(payload)
    case Some(e) => r := Err(e);
    case None => r := Ok(());
  }

  // ---------------------------------------------------------------------
  // toggleReaction and fetchReactions
  // ---------------------------------------------------------------------

  /** A row of `chat_reactions`, with its identity column. */
  datatype StoredReaction = StoredReaction(id: nat, messageId: int, userId: string, emoji: string)

  datatype ToggleError = LookupFailed | NotSingle | WriteFailed

  predicate Same(x: StoredReaction, mid: int, user: string, emoji: string) {
    x.messageId == mid && x.userId == user && x.emoji == emoji
  }

  /** The ids of the user's rows for this emoji under this message. */
  function MatchIds(rows: seq<StoredReaction>, mid: int, user: string, emoji: string): (r: seq<nat>)
    ensures |r| <= |rows|
    ensures forall id :: id in r <==> exists x :: x in rows && x.id == id && Same(x, mid, user, emoji)
  {
    if rows == [] then []
    else
      var rest := MatchIds(rows[1..], mid, user, emoji);
      assert forall x :: x in rows <==> x == rows[0] || x in rows[1..];
      if Same(rows[0], mid, user, emoji) then [rows[0].id] + rest else rest
  }

  /** `delete().eq("id", id)`. */
  function RemoveId(rows: seq<StoredReaction>, id: nat): (r: seq<StoredReaction>)
    ensures forall x :: x in r <==> x in rows && x.id != id
  {
    if rows == [] then []
    else
      assert forall x :: x in rows <==> x == rows[0] || x in rows[1..];
      (if rows[0].id == id then [] else [rows[0]]) + RemoveId(rows[1..], id)
  }

  /** The (message, user, emoji) triples of a table, with multiplicity. */
  function Triples(rows: seq<StoredReaction>): multiset<(int, string, string)> {
    if rows == [] then multiset{}
    else multiset{(rows[0].messageId, rows[0].userId, rows[0].emoji)} + Triples(rows[1..])
  }

  /** Identity values are positive and below the next one. */
  predicate IdsBelow(rows: seq<StoredReaction>, nextId: nat) {
    forall i :: 0 <= i < |rows| ==> 0 < rows[i].id < nextId
  }

  predicate DistinctIds(rows: seq<StoredReaction>) {
    forall i, j :: 0 <= i < j < |rows| ==> rows[i].id != rows[j].id
  }

  /** The table `toggleReaction` acts on. */
  class ReactionTable {
    var rows: seq<StoredReaction>
    var nextId: nat

    /** Identity values are positive, distinct and below the next one. */
    predicate Valid()
      reads this
    {
      0 < nextId && IdsBelow(rows, nextId) && DistinctIds(rows)
    }

    constructor()
      ensures Valid() && rows == [] && nextId == 1
    {
      rows := [];
      nextId := 1;
    }

    /** `toggleReaction`: look the user's row up (`maybeSingle` fails on
        more than one), delete it when found, otherwise insert one.
        `lookupFails` and `writeFails` stand for database errors. */
    method Toggle(mid: int, emoji: string, user: string, lookupFails: bool, writeFails: bool)
      returns (r: Result<bool, ToggleError>)
      requires Valid()
      modifies this
      ensures Valid()
      ensures var found := MatchIds(old(rows), mid, user, emoji);
        && (r == Ok(true) <==> !lookupFails && !writeFails && found == [])
        && (r == Ok(false) <==> !lookupFails && !writeFails && |found| == 1)
        && (r.Ok? ==> (rows, nextId) == ToggleRows(old(rows), old(nextId), mid, user, emoji))
        && (r.Err? ==> rows == old(rows) && nextId == old(nextId))
    {
      if lookupFails {
        return Err(LookupFailed);
      }
      var found := MatchIds(rows, mid, user, emoji);
      MatchIdsPositive(rows, mid, user, emoji);
      if |found| > 1 {
        return Err(NotSingle);
      }
      if |found| == 1 && found[0] != 0 {
        if writeFails {
          return Err(WriteFailed);
        }
        var before := rows;
        RemoveKeepsIds(before, found[0], nextId);
        rows := RemoveId(before, found[0]);
        return Ok(false);
      }
      if writeFails {
        return Err(WriteFailed);
      }
      InsertKeepsIds(rows, StoredReaction(nextId, mid, user, emoji));
      rows := rows + [StoredReaction(nextId, mid, user, emoji)];
      nextId := nextId + 1;
      r := Ok(true);
    }
  }

  lemma {:induction false} MatchIdsPositive(rows: seq<StoredReaction>, mid: int, user: string, emoji: string)
    requires forall i :: 0 <= i < |rows| ==> 0 < rows[i].id
    ensures forall k :: 0 <= k < |MatchIds(rows, mid, user, emoji)| ==> MatchIds(rows, mid, user, emoji)[k] > 0
  {
    if rows != [] {
      MatchIdsPositive(rows[1..], mid, user, emoji);
    }
  }

  lemma InsertKeepsIds(rows: seq<StoredReaction>, row: StoredReaction)
    requires 0 < row.id && IdsBelow(rows, row.id) && DistinctIds(rows)
    ensures IdsBelow(rows + [row], row.id + 1) && DistinctIds(rows + [row])
  {
    var r := rows + [row];
    forall i, j | 0 <= i < j < |r| ensures r[i].id != r[j].id {
      assert r[i] == rows[i];
    }
  }

  lemma RemoveKeepsIds(rows: seq<StoredReaction>, id: nat, nextId: nat)
    requires IdsBelow(rows, nextId) && DistinctIds(rows)
    ensures IdsBelow(RemoveId(rows, id), nextId) && DistinctIds(RemoveId(rows, id))
  {
    var r := RemoveId(rows, id);
    forall i | 0 <= i < |r| ensures 0 < r[i].id < nextId {
      assert r[i] in r;
    }
    RemoveIdOrder(rows, id);
  }

  lemma {:induction false} RemoveIdOrder(rows: seq<StoredReaction>, id: nat)
    requires DistinctIds(rows)
    ensures DistinctIds(RemoveId(rows, id))
  {
    if rows != [] {
      RemoveIdOrder(rows[1..], id);
      var rest := RemoveId(rows[1..], id);
      forall k | 0 <= k < |rest| ensures rest[k].id != rows[0].id {
        assert rest[k] in rest;
        var j :| 0 <= j < |rows[1..]| && rows[1..][j] == rest[k];
        assert rows[j + 1] == rest[k];
      }
      var r := RemoveId(rows, id);
      if rows[0].id == id {
        assert r == rest;
      } else {
        assert r == [rows[0]] + rest;
        forall i, j | 0 <= i < j < |r| ensures r[i].id != r[j].id {
          assert r[j] == rest[j - 1];
          if i > 0 {
            assert r[i] == rest[i - 1];
          }
        }
      }
    }
  }

  /** The table after a successful toggle, with the next identity value. */
  function ToggleRows(rows: seq<StoredReaction>, nextId: nat, mid: int, user: string, emoji: string)
    : (seq<StoredReaction>, nat)
  {
    var found := MatchIds(rows, mid, user, emoji);
    if |found| == 1 && found[0] != 0 then (RemoveId(rows, found[0]), nextId)
    else (rows + [StoredReaction(nextId, mid, user, emoji)], nextId + 1)
  }

  /** Reacting and then taking the reaction back restores the table. */
  lemma ReactThenUnreact(rows: seq<StoredReaction>, nextId: nat, mid: int, user: string, emoji: string)
    requires 0 < nextId && forall i :: 0 <= i < |rows| ==> rows[i].id < nextId
    requires MatchIds(rows, mid, user, emoji) == []
    ensures var (once, n1) := ToggleRows(rows, nextId, mid, user, emoji);
      var (twice, _) := ToggleRows(once, n1, mid, user, emoji);
      twice == rows
  {
    var row := StoredReaction(nextId, mid, user, emoji);
    var once := rows + [row];
    MatchIdsAppend(rows, [row], mid, user, emoji);
    assert MatchIds([row], mid, user, emoji) == [nextId];
    RemoveIdAppend(rows, [row], nextId);
    RemoveIdAbsent(rows, nextId);
    assert RemoveId([row], nextId) == [];
    assert rows + [] == rows;
  }

  /** Taking a reaction back and reacting again restores the triples; only
      the identity value and the position of the row change. */
  lemma UnreactThenReact(rows: seq<StoredReaction>, nextId: nat, mid: int, user: string, emoji: string)
    requires DistinctIds(rows)
    requires |MatchIds(rows, mid, user, emoji)| == 1 && MatchIds(rows, mid, user, emoji)[0] != 0
    ensures var (once, n1) := ToggleRows(rows, nextId, mid, user, emoji);
      var (twice, _) := ToggleRows(once, n1, mid, user, emoji);
      Triples(twice) == Triples(rows)
  {
    var id := MatchIds(rows, mid, user, emoji)[0];
    var once := RemoveId(rows, id);
    MatchIdsGone(rows, id, mid, user, emoji);
    TriplesAppend(once, [StoredReaction(nextId, mid, user, emoji)]);
    TriplesRemove(rows, id, mid, user, emoji);
  }

  lemma {:induction false} MatchIdsAppend(a: seq<StoredReaction>, b: seq<StoredReaction>, mid: int, user: string, emoji: string)
    ensures MatchIds(a + b, mid, user, emoji) == MatchIds(a, mid, user, emoji) + MatchIds(b, mid, user, emoji)
  {
    if a == [] {
      assert a + b == b;
    } else {
      assert (a + b)[1..] == a[1..] + b;
      MatchIdsAppend(a[1..], b, mid, user, emoji);
    }
  }

  lemma {:induction false} RemoveIdAppend(a: seq<StoredReaction>, b: seq<StoredReaction>, id: nat)
    ensures RemoveId(a + b, id) == RemoveId(a, id) + RemoveId(b, id)
  {
    if a == [] {
      assert a + b == b;
    } else {
      assert (a + b)[1..] == a[1..] + b;
      RemoveIdAppend(a[1..], b, id);
    }
  }

  lemma {:induction false} RemoveIdAbsent(rows: seq<StoredReaction>, id: nat)
    requires forall i :: 0 <= i < |rows| ==> rows[i].id < id
    ensures RemoveId(rows, id) == rows
  {
    if rows != [] {
      RemoveIdAbsent(rows[1..], id);
    }
  }

  /** `ids` without `id`. */
  function Without(ids: seq<nat>, id: nat): seq<nat> {
    if ids == [] then [] else (if ids[0] == id then [] else [ids[0]]) + Without(ids[1..], id)
  }

  lemma {:induction false} MatchIdsRemove(rows: seq<StoredReaction>, id: nat, mid: int, user: string, emoji: string)
    ensures MatchIds(RemoveId(rows, id), mid, user, emoji) == Without(MatchIds(rows, mid, user, emoji), id)
  {
    if rows != [] {
      MatchIdsRemove(rows[1..], id, mid, user, emoji);
      var head := if rows[0].id == id then [] else [rows[0]];
      MatchIdsAppend(head, RemoveId(rows[1..], id), mid, user, emoji);
    }
  }

  /** After the delete no row of the user's for this emoji is left. */
  lemma MatchIdsGone(rows: seq<StoredReaction>, id: nat, mid: int, user: string, emoji: string)
    requires MatchIds(rows, mid, user, emoji) == [id]
    ensures MatchIds(RemoveId(rows, id), mid, user, emoji) == []
  {
    MatchIdsRemove(rows, id, mid, user, emoji);
    assert Without([id], id) == [];
  }

  lemma {:induction false} TriplesAppend(a: seq<StoredReaction>, b: seq<StoredReaction>)
    ensures Triples(a + b) == Triples(a) + Triples(b)
  {
    if a == [] {
      assert a + b == b;
    } else {
      assert (a + b)[1..] == a[1..] + b;
      TriplesAppend(a[1..], b);
    }
  }

  /** Deleting the only matching row takes exactly its triple away. */
  lemma {:induction false} TriplesRemove(rows: seq<StoredReaction>, id: nat, mid: int, user: string, emoji: string)
    requires DistinctIds(rows)
    requires MatchIds(rows, mid, user, emoji) == [id]
    ensures Triples(RemoveId(rows, id)) + multiset{(mid, user, emoji)} == Triples(rows)
  {
    var rest := rows[1..];
    var restIds := MatchIds(rest, mid, user, emoji);
    assert MatchIds(rows, mid, user, emoji) == (if Same(rows[0], mid, user, emoji) then [rows[0].id] else []) + restIds;
    assert MatchIds(rows, mid, user, emoji)[0] == if Same(rows[0], mid, user, emoji) then rows[0].id else restIds[0];
    if rows[0].id == id {
      forall x | x in rest ensures x.id != id {
        var i :| 0 <= i < |rest| && rest[i] == x;
        assert rows[i + 1] == x;
      }
      assert id !in restIds;
      assert Same(rows[0], mid, user, emoji);
      assert restIds == [];
      forall i | 0 <= i < |rest| ensures rest[i].id != id {
        assert rest[i] in rest;
      }
      RemoveIdNotThere(rest, id);
      assert RemoveId(rows, id) == rest;
    } else {
      assert restIds == [id];
      TriplesRemove(rest, id, mid, user, emoji);
      assert RemoveId(rows, id) == [rows[0]] + RemoveId(rest, id);
    }
  }

  lemma {:induction false} RemoveIdNotThere(rows: seq<StoredReaction>, id: nat)
    requires forall i :: 0 <= i < |rows| ==> rows[i].id != id
    ensures RemoveId(rows, id) == rows
  {
    if rows != [] {
      RemoveIdNotThere(rows[1..], id);
    }
  }

  /** `fetchReactions`: no query at all for an empty id list; a missing
      result reads as no rows. */
  function FetchReactions(ids: seq<int>, query: seq<int> -> Result<Option<seq<StoredReaction>>, string>)
    : (r: Result<seq<StoredReaction>, string>)
    ensures ids == [] ==> r == Ok([])
    ensures ids != [] ==> (r.Err? <==> query(ids).Err?)
    ensures ids != [] && query(ids).Ok? ==> r.value == query(ids).value.GetOr([])
  {
    if |ids| == 0 then Ok([])
    else
      match query(ids)
      case Err(e) => Err(e)
      case Ok(data) => Ok(data.GetOr([]))
  }

  /** The empty-list answer does not depend on the database. */
  lemma FetchEmptyIgnoresQuery(q1: seq<int> -> Result<Option<seq<StoredReaction>>, string>,
                               q2: seq<int> -> Result<Option<seq<StoredReaction>>, string>)
    ensures FetchReactions([], q1) == FetchReactions([], q2) == Ok([])
  {
  }
}
