/**
 * The wire side of package tcpnetwork: the brace-depth framing of a read, the
 * decoded view of a JSON frame, the message and response records the server
 * writes, and the byte streams its sockets deliver.
 */
module TcpMessages {
  import opened Wrappers
  import opened Bytes
  import opened Strconv

  // ---------------------------------------------------------------- framing

  /** What one byte adds to the brace depth. */
  function Delta(b: Byte): int
  {
    if b == OpenBrace then 1 else if b == CloseBrace then -1 else 0
  }

  /** Brace depth of a byte string: opening braces minus closing braces. */
  function Balance(s: seq<Byte>): int
  {
    if s == [] then 0 else Balance(s[..|s| - 1]) + Delta(s[|s| - 1])
  }

  /** Every non-empty proper prefix of `c` is still inside the outermost brace. */
  predicate Open(c: seq<Byte>)
  {
    forall j :: 0 < j < |c| ==> Balance(c[..j]) > 0
  }

  /** Appending a byte to an open span whose depth is positive keeps it open. */
  lemma ExtendOpen(c: seq<Byte>, b: Byte)
    requires Open(c) && (c == [] || Balance(c) > 0)
    ensures Open(c + [b]) && Balance(c + [b]) == Balance(c) + Delta(b)
  {
    var d := c + [b];
    assert d[..|d| - 1] == c;
    forall j | 0 < j < |d| ensures Balance(d[..j]) > 0 {
      if j < |c| {
        assert d[..j] == c[..j];
      } else {
        assert d[..j] == c;
      }
    }
  }

  /** `bytes.IndexByte`: the first index of `c` in `s`, or -1. */
  function IndexByte(s: seq<Byte>, c: Byte): (i: int)
    ensures -1 <= i < |s|
    ensures i >= 0 ==> s[i] == c
    ensures forall j :: 0 <= j < |s| && (i < 0 || j < i) ==> s[j] != c
  {
    if s == [] then -1
    else if s[0] == c then 0
    else
      var k := IndexByte(s[1..], c);
      if k < 0 then -1 else k + 1
  }

  /**
   * The cleanup loop of `handleMessage`: the span from the first `{` to the `}`
   * that brings the depth back to zero, or to the end of the read when it never
   * does; empty when the read has no `{`. Bytes outside the span are dropped.
   */
  predicate IsFrame(data: seq<Byte>, clean: seq<Byte>)
  {
    && (IndexByte(data, OpenBrace) < 0 ==> clean == [])
    && (IndexByte(data, OpenBrace) >= 0 ==>
      var start := IndexByte(data, OpenBrace);
      && start + |clean| <= |data|
      && clean == data[start..start + |clean|]
      && clean != [] && clean[0] == OpenBrace
      && Open(clean)
      && (start + |clean| < |data| ==> Balance(clean) == 0))
  }

  /** A read has one frame: the conditions of `IsFrame` leave no choice. */
  lemma FrameUnique(data: seq<Byte>, a: seq<Byte>, b: seq<Byte>)
    requires IsFrame(data, a) && IsFrame(data, b)
    ensures a == b
  {
    var start := IndexByte(data, OpenBrace);
    if start >= 0 && |a| < |b| {
      ShorterSpanStillOpen(data, start, a, b);
      assert false;
    }
    if start >= 0 && |b| < |a| {
      ShorterSpanStillOpen(data, start, b, a);
      assert false;
    }
  }

  /** A shorter span from the same start, inside an open one, has not closed. */
  lemma ShorterSpanStillOpen(data: seq<Byte>, start: int, a: seq<Byte>, b: seq<Byte>)
    requires 0 <= start && start + |b| <= |data| && 0 < |a| < |b|
    requires a == data[start..start + |a|] && b == data[start..start + |b|] && Open(b)
    ensures Balance(a) > 0
  {
    assert b[..|a|] == a;
  }

  /** `handleMessage` reports an empty message exactly when the read holds no `{`. */
  lemma EmptyFrameIffNoBrace(data: seq<Byte>, clean: seq<Byte>)
    requires IsFrame(data, clean)
    ensures TrimSpace(clean) == [] <==> IndexByte(data, OpenBrace) < 0
  {
    if clean != [] {
      TrimSpaceKeepsBrace(clean);
    }
  }

  /** The extraction loop itself, with a `break` where the depth first returns to zero. */
  method ExtractFrame(data: seq<Byte>) returns (clean: seq<Byte>)
    ensures IsFrame(data, clean)
  {
    clean := [];
    var foundOpenBrace := false;
    var braceCount := 0;
    var i := 0;
    ghost var start := IndexByte(data, OpenBrace);
    while i < |data|
      invariant 0 <= i <= |data|
      invariant foundOpenBrace <==> 0 <= start < i
      invariant !foundOpenBrace ==> clean == [] && braceCount == 0 && (start < 0 || i <= start)
      invariant foundOpenBrace ==> clean == data[start..i]
      invariant foundOpenBrace ==> braceCount == Balance(clean) && braceCount > 0 && Open(clean)
    {
      var b := data[i];
      if b == OpenBrace {
        assert !foundOpenBrace ==> start == i;
        foundOpenBrace := true;
        braceCount := braceCount + 1;
      }
      if foundOpenBrace {
        assert data[start..i + 1] == data[start..i] + [b];
        ExtendOpen(clean, b);
        clean := clean + [b];
        if b == CloseBrace {
          braceCount := braceCount - 1;
          if braceCount == 0 {
            return;
          }
        }
      }
      i := i + 1;
    }
  }

  /** The bytes `strings.TrimSpace` strips: tab, line feed, vertical tab, form feed, carriage return, space. */
  predicate IsSpace(b: Byte)
  {
    9 <= b <= 13 || b == 32
  }

  function TrimLeft(s: seq<Byte>): (r: seq<Byte>)
    ensures |r| <= |s| && r == s[|s| - |r|..]
    ensures r == [] || !IsSpace(r[0])
    ensures forall j :: 0 <= j < |s| - |r| ==> IsSpace(s[j])
  {
    if s != [] && IsSpace(s[0]) then TrimLeft(s[1..]) else s
  }

  function TrimRight(s: seq<Byte>): (r: seq<Byte>)
    ensures |r| <= |s| && r == s[..|r|]
    ensures r == [] || !IsSpace(r[|r| - 1])
    ensures forall j :: |r| <= j < |s| ==> IsSpace(s[j])
  {
    if s != [] && IsSpace(s[|s| - 1]) then TrimRight(s[..|s| - 1]) else s
  }

  /** `strings.TrimSpace` on the frame: leading and trailing white space removed. */
  function TrimSpace(s: seq<Byte>): (r: seq<Byte>)
    ensures r == [] || (!IsSpace(r[0]) && !IsSpace(r[|r| - 1]))
    ensures r == [] <==> forall k :: 0 <= k < |s| ==> IsSpace(s[k])
  {
    TrimRight(TrimLeft(s))
  }

  /** A frame that starts with `{` never trims to nothing. */
  lemma TrimSpaceKeepsBrace(s: seq<Byte>)
    requires s != [] && s[0] == OpenBrace
    ensures TrimSpace(s) != [] && TrimSpace(s)[0] == OpenBrace
  {
  }

  // ------------------------------------------------------------ JSON values

  /** A decoded JSON value. The server's decoder turns frame bytes into one of these or fails. */
  datatype Json =
    | JNull
    | JBool(b: bool)
    | JNumber(text: string)
    | JString(s: string)
    | JArray(items: seq<Json>)
    | JObject(members: map<string, Json>)

  /**
   * `json.Unmarshal` into a struct whose fields are all strings: a missing member
   * or `null` leaves a field "", a string fills it, any other member value is a
   * type error; a top-level `null` leaves every field "", any top level other than
   * an object or `null` is an error.
   */
  function DecodeStrings(v: Json, keys: seq<string>): (r: Option<seq<string>>)
    ensures r.Some? ==> |r.value| == |keys|
    ensures r.Some? && v.JObject? ==> forall i :: 0 <= i < |keys| ==>
      r.value[i] == (if keys[i] in v.members && v.members[keys[i]].JString? then v.members[keys[i]].s else "")
    ensures r.Some? && v.JNull? ==> forall i :: 0 <= i < |keys| ==> r.value[i] == ""
    ensures r.None? <==> (
      || !(v.JObject? || v.JNull?)
      || (v.JObject? && exists i :: 0 <= i < |keys| && keys[i] in v.members && !(v.members[keys[i]].JNull? || v.members[keys[i]].JString?)))
  {
    if keys == [] then (if v.JObject? || v.JNull? then Some([]) else None)
    else
      var field: Option<string> :=
        if v.JNull? then Some("")
        else if !v.JObject? then None
        else if keys[0] !in v.members then Some("")
        else match v.members[keys[0]]
          case JNull => Some("")
          case JString(s) => Some(s)
          case _ => None;
      var rest := DecodeStrings(v, keys[1..]);
      if field.Some? && rest.Some? then Some([field.value] + rest.value)
      else
        assert field.None? && v.JObject? ==> keys[0] in v.members;
        None
  }

  /**
   * The `type` member as `handleMessage` reads it: decoding into a map fails for
   * anything but an object or `null`; `type` must then be present and a string.
   */
  function MessageType(v: Option<Json>): (r: Result<string, Fault>)
    ensures r.Success? <==> v.Some? && v.value.JObject? && "type" in v.value.members && v.value.members["type"].JString?
    ensures r.Success? ==> r.value == v.value.members["type"].s
    ensures r.Failure? ==> r.error == (if v.None? || !(v.value.JObject? || v.value.JNull?) then BadJson else MissingType)
  {
    match v
    case None => Failure(BadJson)
    case Some(JNull) => Failure(MissingType)
    case Some(JObject(m)) =>
      if "type" in m && m["type"].JString? then Success(m["type"].s) else Failure(MissingType)
    case Some(_) => Failure(BadJson)
  }

  // --------------------------------------------------------------- records

  /** A chat message, as clients send it and the server forwards or replays it. */
  datatype ChatMessage = ChatMessage(typ: string, content: string, receiveID: string, sendTime: string, sendID: string)

  datatype LoginRequest = LoginRequest(typ: string, name: string, pwd: string)

  datatype FileHeader = FileHeader(typ: string, filename: string, size: string, sendID: string, receiveID: string)

  datatype FriendInfo = FriendInfo(userID: string, name: string, status: int, online: bool)

  function DecodeChat(v: Json): (r: Option<ChatMessage>)
    ensures r.Some? <==> DecodeStrings(v, ["type", "content", "receiveid", "sendTime", "sendid"]).Some?
  {
    match DecodeStrings(v, ["type", "content", "receiveid", "sendTime", "sendid"])
    case Some(f) => Some(ChatMessage(f[0], f[1], f[2], f[3], f[4]))
    case None => None
  }

  function DecodeLogin(v: Json): (r: Option<LoginRequest>)
    ensures r.Some? <==> DecodeStrings(v, ["type", "name", "pwd"]).Some?
  {
    match DecodeStrings(v, ["type", "name", "pwd"])
    case Some(f) => Some(LoginRequest(f[0], f[1], f[2]))
    case None => None
  }

  function DecodeFileHeader(v: Json): (r: Option<FileHeader>)
    ensures r.Some? <==> DecodeStrings(v, ["type", "filename", "size", "sendid", "receiveid"]).Some?
  {
    match DecodeStrings(v, ["type", "filename", "size", "sendid", "receiveid"])
    case Some(f) => Some(FileHeader(f[0], f[1], f[2], f[3], f[4]))
    case None => None
  }

  /** The `oldpwd` and `newpwd` of a change-password request. */
  function DecodeChangePassword(v: Json): (r: Option<(string, string)>)
    ensures r.Some? <==> DecodeStrings(v, ["type", "oldpwd", "newpwd"]).Some?
  {
    match DecodeStrings(v, ["type", "oldpwd", "newpwd"])
    case Some(f) => Some((f[1], f[2]))
    case None => None
  }

  /** The `name` of a change-name request. */
  function DecodeChangeName(v: Json): (r: Option<string>)
    ensures r.Some? <==> DecodeStrings(v, ["type", "name"]).Some?
  {
    match DecodeStrings(v, ["type", "name"])
    case Some(f) => Some(f[1])
    case None => None
  }

  /** What the server writes to a connection, one JSON line (or raw file bytes) each. */
  datatype Out =
    | LoginResponse(success: bool, message: string)
    | ChatOut(msg: ChatMessage)
    | FriendListOut(friends: seq<FriendInfo>)
    | ChangePwdResponse(status: string, message: string)
    | ChangeNameResponse(status: string)
    | FileNotify(filename: string, size: string, senderID: string)
    | FileData(bytes: seq<Byte>)

  /** Why a handler gave up; each is one of the source's returned errors. */
  datatype Fault =
    | EmptyMessage | BadJson | MissingType | UnknownType(typ: string)
    | BadChat | ForwardFailed | QueueFailed
    | BadFileHeader | BadFileSize | NotifyFailed | ReadFailed | WriteFailed | CreateFailed | OpenFailed
    | BadUserId | BadRequest | UserNotFound | WrongPassword | UpdateFailed | ResponseFailed

  // -------------------------------------------------------------- dispatch

  datatype Route = ChatRoute | FileRoute | ChangePwdRoute | ChangeNameRoute

  /** The type switch of `handleMessage`: four known types, each to its own handler. */
  function Dispatch(typ: string): (r: Option<Route>)
    ensures r == Some(ChatRoute) <==> typ == "message"
    ensures r == Some(FileRoute) <==> typ == "file_transfer"
    ensures r == Some(ChangePwdRoute) <==> typ == "changepwd"
    ensures r == Some(ChangeNameRoute) <==> typ == "changename"
  {
    if typ == "message" then Some(ChatRoute)
    else if typ == "file_transfer" then Some(FileRoute)
    else if typ == "changepwd" then Some(ChangePwdRoute)
    else if typ == "changename" then Some(ChangeNameRoute)
    else None
  }

  // --------------------------------------------------------------- streams

  /** One delivery of a socket: some bytes, or an error (the peer closed, a reset, a timeout). */
  datatype ReadResult = Chunk(bytes: seq<Byte>) | ReadError

  /** What a socket still has to deliver: each delivery counts one, plus its bytes. */
  function StreamSize(s: seq<ReadResult>): nat
  {
    if s == [] then 0 else 1 + (if s[0].Chunk? then |s[0].bytes| else 0) + StreamSize(s[1..])
  }

  /** The bytes a stream delivers before its first error or its end. */
  function Received(s: seq<ReadResult>): seq<Byte>
  {
    if s == [] || s[0].ReadError? then [] else s[0].bytes + Received(s[1..])
  }

  /**
   * `conn.Read` into a buffer of `cap` bytes: at most `cap` bytes of the next
   * delivery, the remainder staying for the next read; an error at a delivered
   * error or at the end of the stream.
   */
  function Read(s: seq<ReadResult>, cap: nat): (r: (Option<seq<Byte>>, seq<ReadResult>))
    requires cap > 0
    ensures r.0.Some? ==> |r.0.value| <= cap && StreamSize(r.1) < StreamSize(s)
    ensures r.0.Some? ==> Received(s) == r.0.value + Received(r.1)
    ensures r.0.None? ==> Received(s) == [] && StreamSize(r.1) <= StreamSize(s)
  {
    if s == [] then (None, [])
    else if s[0].ReadError? then (None, s[1..])
    else if |s[0].bytes| <= cap then (Some(s[0].bytes), s[1..])
    else
      var rest := [Chunk(s[0].bytes[cap..])] + s[1..];
      assert rest[1..] == s[1..];
      assert s[0].bytes == s[0].bytes[..cap] + s[0].bytes[cap..];
      (Some(s[0].bytes[..cap]), rest)
  }

  /** The concatenation of a sequence of chunks. */
  function Flatten(chunks: seq<seq<Byte>>): seq<Byte>
  {
    if chunks == [] then [] else chunks[0] + Flatten(chunks[1..])
  }

  lemma {:induction false} FlattenAppend(chunks: seq<seq<Byte>>, c: seq<Byte>)
    ensures Flatten(chunks + [c]) == Flatten(chunks) + c
  {
    if chunks != [] {
      assert (chunks + [c])[1..] == chunks[1..] + [c];
      FlattenAppend(chunks[1..], c);
    } else {
      assert [c][1..] == [];
    }
  }
}
