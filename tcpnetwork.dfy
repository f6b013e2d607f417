/**
 * The TCP connection engine of package tcpnetwork, over abstract state: the
 * registry of logged-in clients, the log of everything written to a connection,
 * the in-memory table of stashed files and the file store they live in, plus
 * the database tables of `DatabaseTool.Store`. A socket is a sequence of
 * deliveries; JSON decoding and time formatting are functions the engine is
 * given.
 */
module TcpNetwork {
  import opened Wrappers
  import opened Bytes
  import opened Strconv
  import opened RelationBits
  import opened FriendUpdate
  import opened DatabaseTool
  import opened TcpMessages

  /** Identifies one accepted connection. */
  type ConnId = nat

  const LoginBufferSize := 1024
  const MessageBufferSize := 4096
  const FileBufferSize := 1024 * 1024
  const FileStoragePath := "/root/connection_server/connection_server_linux/file_storage/"
  /** Queue rows whose content starts with this name a stashed file instead of carrying text. */
  const FilePrefix := "file:"

  const LoginUnknownUser := "账号不存在"
  const LoginWrongPassword := "用户名或密码错误"
  const LoginServerError := "服务器错误"
  const PasswordChanged := "修改密码成功"
  const PasswordBusy := "修改密码失败，服务器繁忙"
  const PasswordWrongOld := "修改密码失败，原密码不正确"

  /** A logged-in connection: its socket, its user's decimal id and its peer address. */
  datatype Client = Client(conn: ConnId, id: string, ip: string)

  /** A file received for an offline user, waiting in the store until the user logs in. */
  datatype FileStorage = FileStorage(
    filename: string, filePath: string, fileSize: int, received: int,
    sendTime: int, senderID: string, receiverID: string)

  /** How one connection's life ended. */
  datatype Stage = LoginFailed | SetupFailed(id: string) | Closed(id: string)

  /** The name a stashed file is kept under: sender, receiver, clock reading and file name. */
  function FileKey(h: FileHeader, nanos: int): string
  {
    h.sendID + "_" + h.receiveID + "_" + FormatInt(nanos) + "_" + h.filename
  }

  /** Whether a queue row names a stashed file rather than carrying a chat text. */
  predicate IsFileRow(c: Unsendchat)
  {
    HasPrefix(c.content, FilePrefix)
  }

  // ------------------------------------------------------------ friend list

  /**
   * The ids below `n` that the friend-list loop keeps, in ascending order: status
   * `i` is the friend code and the account exists (there are `accounts` rows,
   * with ids 1 .. accounts).
   */
  function FriendIds(statuses: seq<int>, accounts: nat, n: nat): (ids: seq<nat>)
    requires n <= |statuses|
    ensures IdsWithin(ids, accounts)
    decreases n
  {
    if n <= 1 then []
    else
      var ids := FriendIds(statuses, accounts, n - 1);
      if statuses[n - 1] == Friend && n - 1 <= accounts then ids + [n - 1] else ids
  }

  /** Every id in `ids` is an account id, 1 .. accounts. */
  predicate IdsWithin(ids: seq<nat>, accounts: nat)
  {
    forall j :: 0 <= j < |ids| ==> 1 <= ids[j] <= accounts
  }

  /** The kept ids ascend, and an id below `n` is kept exactly when its status is the friend code and its account exists. */
  lemma {:induction false} FriendIdsExactly(statuses: seq<int>, accounts: nat, n: nat)
    requires n <= |statuses|
    ensures var ids := FriendIds(statuses, accounts, n);
      && (forall j :: 0 <= j < |ids| ==> ids[j] < n)
      && (forall j, k :: 0 <= j < k < |ids| ==> ids[j] < ids[k])
      && (forall i :: 1 <= i < n ==> (i in ids <==> statuses[i] == Friend && i <= accounts))
    decreases n
  {
    if n > 1 {
      FriendIdsExactly(statuses, accounts, n - 1);
    }
  }

  /** One step of the friend-list loop: index `i` is kept exactly when it is a friend with an account. */
  lemma FriendIdsStep(statuses: seq<int>, accounts: nat, i: nat)
    requires 1 <= i < |statuses|
    ensures FriendIds(statuses, accounts, i + 1) ==
      if statuses[i] == Friend && i <= accounts then FriendIds(statuses, accounts, i) + [i] else FriendIds(statuses, accounts, i)
  {
  }

  /** Only statuses 1 .. n-1 matter: entry 0, which the source overwrites with the user's own id, is never read. */
  lemma {:induction false} FriendIdsIgnoreSlotZero(s: seq<int>, x: int, accounts: nat, n: nat)
    requires 1 <= n <= |s|
    ensures FriendIds(s[0 := x], accounts, n) == FriendIds(s, accounts, n)
    decreases n
  {
    if n > 1 {
      FriendIdsIgnoreSlotZero(s, x, accounts, n - 1);
    }
  }

  /** The entry the friend list carries for account `i`. */
  function FriendEntry(users: seq<User>, i: nat): FriendInfo
    requires 1 <= i <= |users|
  {
    FriendInfo(Itoa(i), users[i - 1].name, Friend, users[i - 1].status == 1)
  }

  function FriendEntries(users: seq<User>, ids: seq<nat>): (r: seq<FriendInfo>)
    requires IdsWithin(ids, |users|)
    ensures |r| == |ids|
  {
    if ids == [] then [] else FriendEntries(users, ids[..|ids| - 1]) + [FriendEntry(users, ids[|ids| - 1])]
  }

  lemma EntriesAppend(users: seq<User>, ids: seq<nat>, x: nat)
    requires IdsWithin(ids, |users|)
    requires 1 <= x <= |users|
    ensures FriendEntries(users, ids + [x]) == FriendEntries(users, ids) + [FriendEntry(users, x)]
  {
    assert (ids + [x])[..|ids|] == ids;
  }

  lemma {:induction false} EntriesAt(users: seq<User>, ids: seq<nat>)
    requires IdsWithin(ids, |users|)
    ensures forall j :: 0 <= j < |ids| ==> FriendEntries(users, ids)[j] == FriendEntry(users, ids[j])
  {
    if ids != [] {
      EntriesAt(users, ids[..|ids| - 1]);
    }
  }

  /** The friend list of a user with relation vector `relation`. */
  function FriendList(relation: seq<bv8>, users: seq<User>): seq<FriendInfo>
  {
    FriendEntries(users, FriendIds(Decoded(relation), |users|, 8 * |relation| + 2))
  }

  /**
   * A friend list holds exactly the peers whose field in the relation vector is the
   * friend code and that have an account, each once, in ascending id order, each
   * under its decimal id, with its name and whether it is online.
   */
  lemma FriendListIsFriends(relation: seq<bv8>, users: seq<User>)
    ensures var ids := FriendIds(Decoded(relation), |users|, 8 * |relation| + 2);
      && |FriendList(relation, users)| == |ids|
      && (forall j :: 0 <= j < |ids| ==> FriendList(relation, users)[j] == FriendEntry(users, ids[j]))
      && (forall j :: 0 <= j < |ids| ==> 1 <= ids[j] <= 4 * |relation|)
      && (forall i :: 1 <= i <= 4 * |relation| ==> (i in ids <==> PeerState(relation, i) == Friend && i <= |users|))
      && (forall j, k :: 0 <= j < k < |ids| ==> ids[j] < ids[k])
  {
    var s := Decoded(relation);
    var ids := FriendIds(s, |users|, 8 * |relation| + 2);
    FriendIdsExactly(s, |users|, 8 * |relation| + 2);
    EntriesAt(users, ids);
    forall j | 0 <= j < |ids| ensures ids[j] <= 4 * |relation| {
      var i := ids[j];
      assert i in ids && 1 <= i < 8 * |relation| + 2;
      // `Decoded` gives the friend code only to peers 1 .. 4|relation|.
      assert s[i] == Friend != NoRelation;
    }
    forall i | 1 <= i <= 4 * |relation| ensures (i in ids <==> PeerState(relation, i) == Friend && i <= |users|) {
      assert s[i] == PeerState(relation, i);
    }
  }

  // ------------------------------------------------------------ file chunks

  /** A file's content as the retrieval loop reads it: full buffers, then the remainder. */
  function ChunksOf(content: seq<Byte>, cap: nat): seq<seq<Byte>>
    requires cap > 0
    decreases |content|
  {
    if content == [] then []
    else if |content| <= cap then [content]
    else [content[..cap]] + ChunksOf(content[cap..], cap)
  }

  /** The chunks are non-empty, at most `cap` bytes each, and together they are the whole content. */
  lemma {:induction false} ChunksCover(content: seq<Byte>, cap: nat)
    requires cap > 0
    ensures forall j :: 0 <= j < |ChunksOf(content, cap)| ==> 0 < |ChunksOf(content, cap)[j]| <= cap
    ensures Flatten(ChunksOf(content, cap)) == content
    decreases |content|
  {
    var r := ChunksOf(content, cap);
    if content == [] {
    } else if |content| <= cap {
      assert Flatten([content]) == content + Flatten([]);
    } else {
      var rest := ChunksOf(content[cap..], cap);
      ChunksCover(content[cap..], cap);
      assert r == [content[..cap]] + rest;
      assert r[1..] == rest;
      assert content == content[..cap] + content[cap..];
      forall j | 0 <= j < |r|
        ensures 0 < |r[j]| <= cap
      {
        if j > 0 {
          assert r[j] == rest[j - 1];
        }
      }
    }
  }

  /** The writes of `chunks` to connection `c`, one raw write per chunk. */
  function DataOuts(c: ConnId, chunks: seq<seq<Byte>>): (r: seq<(ConnId, Out)>)
    ensures |r| == |chunks|
  {
    if chunks == [] then [] else DataOuts(c, chunks[..|chunks| - 1]) + [(c, FileData(chunks[|chunks| - 1]))]
  }

  lemma DataOutsAppend(c: ConnId, chunks: seq<seq<Byte>>, x: seq<Byte>)
    ensures DataOuts(c, chunks + [x]) == DataOuts(c, chunks) + [(c, FileData(x))]
  {
    assert (chunks + [x])[..|chunks|] == chunks;
  }

  /** The chunks from `pos` on: one of `n` bytes, a full buffer or the remainder, then the chunks after it. */
  lemma ChunksStep(content: seq<Byte>, pos: nat, cap: nat, n: nat)
    requires cap > 0 && pos < |content|
    requires n == if |content| - pos < cap then |content| - pos else cap
    ensures ChunksOf(content[pos..], cap) == [content[pos..pos + n]] + ChunksOf(content[pos + n..], cap)
  {
    if |content| - pos > cap {
      assert content[pos..][cap..] == content[pos + cap..];
      assert content[pos..][..cap] == content[pos..pos + cap];
    } else {
      assert content[pos..] == content[pos..|content|];
      assert content[|content|..] == [];
    }
  }

  /** One more chunk written: the log is the writes of the chunks so far plus this one. */
  lemma SentGrows(log0: seq<(ConnId, Out)>, before: seq<(ConnId, Out)>, after: seq<(ConnId, Out)>,
                  c: ConnId, done: seq<seq<Byte>>, x: seq<Byte>)
    requires before == log0 + DataOuts(c, done) && after == before + [(c, FileData(x))]
    ensures after == log0 + DataOuts(c, done + [x])
  {
    DataOutsAppend(c, done, x);
  }

  /** `done` are the chunks of `content` before position `pos`. */
  predicate ChunkedUpTo(content: seq<Byte>, pos: nat, cap: nat, done: seq<seq<Byte>>)
    requires cap > 0 && pos <= |content|
  {
    ChunksOf(content, cap) == done + ChunksOf(content[pos..], cap)
  }

  /** One more chunk read: the chunks read so far grow by the chunk at `pos`. */
  lemma ChunksAdvance(content: seq<Byte>, pos: nat, cap: nat, done: seq<seq<Byte>>, n: nat)
    requires cap > 0 && pos < |content| && ChunkedUpTo(content, pos, cap, done)
    requires n == if |content| - pos < cap then |content| - pos else cap
    ensures ChunkedUpTo(content, pos + n, cap, done + [content[pos..pos + n]])
  {
    var chunk := content[pos..pos + n];
    var rest := ChunksOf(content[pos + n..], cap);
    ChunksStep(content, pos, cap, n);
    assert done + ([chunk] + rest) == (done + [chunk]) + rest;
  }

  /** A write of `o` to `c` was attempted: the log gained that one entry, or nothing if the write failed. */
  predicate WroteAtMost(before: seq<(ConnId, Out)>, after: seq<(ConnId, Out)>, c: ConnId, o: Out)
  {
    after == before || after == before + [(c, o)]
  }

  /** The raw file bytes a log carries, in order; every other message contributes nothing. */
  function Payload(log: seq<(ConnId, Out)>): seq<Byte>
  {
    if log == [] then []
    else Payload(log[..|log| - 1]) + (if log[|log| - 1].1.FileData? then log[|log| - 1].1.bytes else [])
  }

  /** Writing chunks one per write puts exactly their concatenation on the wire. */
  lemma {:induction false} PayloadOfChunks(c: ConnId, chunks: seq<seq<Byte>>)
    ensures Payload(DataOuts(c, chunks)) == Flatten(chunks)
  {
    if chunks != [] {
      var init, last := chunks[..|chunks| - 1], chunks[|chunks| - 1];
      assert init + [last] == chunks;
      PayloadOfChunks(c, init);
      DataOutsAppend(c, init, last);
      PayloadSnoc(DataOuts(c, init), (c, FileData(last)));
      FlattenAppend(init, last);
    }
  }

  lemma PayloadSnoc(log: seq<(ConnId, Out)>, e: (ConnId, Out))
    ensures Payload(log + [e]) == Payload(log) + (if e.1.FileData? then e.1.bytes else [])
  {
    assert (log + [e])[..|log|] == log;
  }

  /** A stored file is served byte for byte: the chunk writes carry exactly its content. */
  lemma ServedContent(c: ConnId, content: seq<Byte>)
    ensures Payload(DataOuts(c, ChunksOf(content, FileBufferSize))) == content
  {
    PayloadOfChunks(c, ChunksOf(content, FileBufferSize));
    ChunksCover(content, FileBufferSize);
  }

  /**
   * The checks `handleChangePassword` makes before it writes: the session id parses,
   * the request decodes, the account exists, the old password matches. The first
   * one that fails, or None.
   */
  function PasswordCheck(id: Option<int>, req: Option<(string, string)>, users: seq<User>): (r: Option<Fault>)
    ensures r.None? <==>
      id.Some? && req.Some? && 1 <= id.value <= |users| && users[id.value - 1].password == req.value.0
    ensures r == Some(WrongPassword) <==>
      id.Some? && req.Some? && 1 <= id.value <= |users| && users[id.value - 1].password != req.value.0
  {
    if id.None? then Some(BadUserId)
    else if req.None? then Some(BadRequest)
    else if !(1 <= id.value <= |users|) then Some(UserNotFound)
    else if users[id.value - 1].password != req.value.0 then Some(WrongPassword)
    else None
  }

  /** The message of a failed password change: a wrong old password is told apart, every other failure is "busy". */
  function PasswordFailure(f: Fault): string
  {
    if f == WrongPassword then PasswordWrongOld else PasswordBusy
  }

  /** The accounts after renaming account `id`; an id without an account changes nothing. */
  function Renamed(users: seq<User>, id: int, name: string): (r: seq<User>)
    ensures |r| == |users|
    ensures forall i :: 0 <= i < |users| ==> r[i] == if i == id - 1 then users[i].(name := name) else users[i]
  {
    if 1 <= id <= |users| then users[id - 1 := users[id - 1].(name := name)] else users
  }

  /** Every chunk fits the 1 MiB buffer it was read into. */
  predicate ChunksWithin(chunks: seq<seq<Byte>>, cap: nat)
  {
    forall j :: 0 <= j < |chunks| ==> |chunks[j]| <= cap
  }

  /**
   * A copy loop's reads: `chunks` are the reads it made, in order, from `input`,
   * leaving `rest`; they reach `size` bytes, and the loop stopped at the first read
   * that did (a read may carry more than was still due, and all of it is copied).
   */
  predicate Copied(input: seq<ReadResult>, rest: seq<ReadResult>, chunks: seq<seq<Byte>>, size: int)
  {
    && Received(input) == Flatten(chunks) + Received(rest)
    && |Flatten(chunks)| >= size
    && (chunks == [] || |Flatten(chunks[..|chunks| - 1])| < size)
    && ChunksWithin(chunks, FileBufferSize)
    && StreamSize(rest) <= StreamSize(input)
  }

  /** The loop state after some reads: the same facts, bar reaching `size`. */
  predicate CopiedSoFar(input: seq<ReadResult>, rest: seq<ReadResult>, chunks: seq<seq<Byte>>, size: int, received: int)
  {
    && received == |Flatten(chunks)|
    && Received(input) == Flatten(chunks) + Received(rest)
    && (chunks == [] || |Flatten(chunks[..|chunks| - 1])| < size)
    && ChunksWithin(chunks, FileBufferSize)
    && StreamSize(rest) <= StreamSize(input)
  }

  /** The bytes read so far grow by a read's bytes, and the stream's remainder shrinks by them. */
  lemma ReceivedStep(input: seq<ReadResult>, rest: seq<ReadResult>, rest2: seq<ReadResult>, chunks: seq<seq<Byte>>, data: seq<Byte>)
    requires Received(input) == Flatten(chunks) + Received(rest)
    requires Received(rest) == data + Received(rest2)
    ensures Received(input) == Flatten(chunks + [data]) + Received(rest2)
  {
    FlattenAppend(chunks, data);
    SplitAgain(Received(input), Flatten(chunks), Received(rest), data, Received(rest2), Flatten(chunks + [data]));
  }

  /** `total` split as `f + r`, with `r` itself `data + r2`, is also `(f + data) + r2`. */
  lemma SplitAgain(total: seq<Byte>, f: seq<Byte>, r: seq<Byte>, data: seq<Byte>, r2: seq<Byte>, f2: seq<Byte>)
    requires total == f + r && r == data + r2 && f2 == f + data
    ensures total == f2 + r2
  {
  }

  /** One more chunk that fits the buffer. */
  lemma WithinStep(chunks: seq<seq<Byte>>, data: seq<Byte>, cap: nat)
    requires ChunksWithin(chunks, cap) && |data| <= cap
    ensures ChunksWithin(chunks + [data], cap)
  {
    forall j | 0 <= j < |chunks + [data]|
      ensures |(chunks + [data])[j]| <= cap
    {
      if j < |chunks| {
        assert (chunks + [data])[j] == chunks[j];
      }
    }
  }

  /** One more read of a copy loop that had not yet reached `size`. */
  lemma CopyStep(input: seq<ReadResult>, rest: seq<ReadResult>, chunks: seq<seq<Byte>>, size: int, received: int)
    requires CopiedSoFar(input, rest, chunks, size, received) && received < size
    requires Read(rest, FileBufferSize).0.Some?
    ensures var r := Read(rest, FileBufferSize);
      CopiedSoFar(input, r.1, chunks + [r.0.value], size, received + |r.0.value|)
  {
    var r := Read(rest, FileBufferSize);
    var data := r.0.value;
    ReceivedStep(input, rest, r.1, chunks, data);
    WithinStep(chunks, data, FileBufferSize);
    FlattenAppend(chunks, data);
    assert (chunks + [data])[..|chunks|] == chunks;
  }

  /** A copy loop that has reached `size` is done. */
  lemma CopyDone(input: seq<ReadResult>, rest: seq<ReadResult>, chunks: seq<seq<Byte>>, size: int, received: int)
    requires CopiedSoFar(input, rest, chunks, size, received) && received >= size
    ensures Copied(input, rest, chunks, size)
  {
  }

  /** The bytes a log carries for one write after another. */
  lemma {:induction false} PayloadAppend(a: seq<(ConnId, Out)>, b: seq<(ConnId, Out)>)
    ensures Payload(a + b) == Payload(a) + Payload(b)
    decreases |b|
  {
    if b == [] {
      assert a + b == a;
    } else {
      var init, last := b[..|b| - 1], b[|b| - 1];
      PayloadAppend(a, init);
      var tail := if last.1.FileData? then last.1.bytes else [];
      assert (a + b)[..|a + b| - 1] == a + init && (a + b)[|a + b| - 1] == last;
      assert Payload(a + b) == Payload(a + init) + tail;
      assert Payload(b) == Payload(init) + tail;
    }
  }

  /**
   * A relayed file reaches the receiver byte for byte: after the notice, the
   * receiver's writes carry exactly the bytes read from the sender, which are a
   * prefix of what the sender sent.
   */
  lemma RelayedContent(log: seq<(ConnId, Out)>, notify: (ConnId, Out), c: ConnId, chunks: seq<seq<Byte>>,
                       input: seq<ReadResult>, rest: seq<ReadResult>, size: int)
    requires !notify.1.FileData? && Copied(input, rest, chunks, size)
    ensures Payload(log + [notify] + DataOuts(c, chunks)) == Payload(log) + Flatten(chunks)
    ensures Flatten(chunks) <= Received(input) && |Flatten(chunks)| >= size
  {
    PayloadAppend(log + [notify], DataOuts(c, chunks));
    PayloadAppend(log, [notify]);
    assert Payload([notify]) == Payload([]) + [];
    PayloadOfChunks(c, chunks);
  }

  /**
   * The parse-and-dispatch of `handleMessage` for the trimmed frame `m` and its
   * decoding `v`: the handler's route and the decoded value, or why it gave up.
   */
  function Routed(m: seq<Byte>, v: Option<Json>): (r: Result<(Route, Json), Fault>)
    ensures r == Failure(EmptyMessage) <==> |m| == 0
    ensures r.Success? <==> |m| > 0 && MessageType(v).Success? && Dispatch(MessageType(v).value).Some?
    ensures r.Success? ==> v == Some(r.value.1) && Dispatch(MessageType(v).value) == Some(r.value.0)
    ensures |m| > 0 && MessageType(v).Failure? ==> r == Failure(MessageType(v).error)
    ensures |m| > 0 && MessageType(v).Success? && Dispatch(MessageType(v).value).None? ==>
      r == Failure(UnknownType(MessageType(v).value))
  {
    if |m| == 0 then Failure(EmptyMessage)
    else match MessageType(v)
      case Failure(e) => Failure(e)
      case Success(typ) =>
        match Dispatch(typ)
        case None => Failure(UnknownType(typ))
        case Some(route) => Success((route, v.value))
  }

  /** The entry `storePendingFile` registers for a completed upload. */
  predicate Stashed(f: FileStorage, h: FileHeader, path: string, size: int, received: int)
  {
    f == FileStorage(h.filename, path, size, received, f.sendTime, h.sendID, h.receiveID)
  }

  /** The "file:" row for `key` was queued under `logid`, or queuing failed and nothing changed. */
  predicate QueuedFileRow(before: map<nat, Unsendchat>, after: map<nat, Unsendchat>, logid: nat, h: FileHeader, key: string)
  {
    || after == before
    || (logid in after && after == before[logid := Unsendchat(logid, h.sendID, h.receiveID, FilePrefix + key, after[logid].sendTime)])
  }

  /** Setting a key and then removing it leaves the map as removing it alone would. */
  lemma RemoveUpdated<K, V>(m: map<K, V>, k: K, v: V)
    ensures m[k := v] - {k} == m - {k}
  {
  }

  /** Setting a key twice keeps only the second value. */
  lemma UpdateTwice<K, V>(m: map<K, V>, k: K, a: V, b: V)
    ensures m[k := a][k := b] == m[k := b]
  {
  }

  /** `cleanupClient`'s account update: offline as of `now` when the id parses and has a row, or no change (including a failed update). */
  predicate Offlined(before: seq<User>, after: seq<User>, id: Option<int>, now: int)
  {
    || after == before
    || (id.Some? && 1 <= id.value <= |before| && after == before[id.value - 1 := before[id.value - 1].(status := 0, leaveTime := now)])
  }

  /** A stored file was served: its notice, then its chunks, all written to the notice's connection. */
  predicate Served(before: seq<(ConnId, Out)>, after: seq<(ConnId, Out)>, notify: (ConnId, Out), content: seq<Byte>)
  {
    after == before + [notify] + DataOuts(notify.0, ChunksOf(content, FileBufferSize))
  }

  /** The log only grew, and if it grew at all its first new entry is `first`. */
  predicate FirstWrite(before: seq<(ConnId, Out)>, after: seq<(ConnId, Out)>, first: (ConnId, Out))
  {
    before <= after && (|after| > |before| ==> after[|before|] == first)
  }

  /** The part of the state one replayed queue row can touch. */
  datatype Snapshot = Snapshot(
    sent: seq<(ConnId, Out)>,
    files: map<string, seq<Byte>>,
    pendingFiles: map<string, FileStorage>,
    chats: map<nat, Unsendchat>)

  /**
   * `checkPendingFiles` of key `fkey` as one replay step. A key not stashed for
   * this client changes nothing. Otherwise the file is served and then removed
   * with its entry, or the step failed: file and entry stay, and whatever was
   * written starts with the notice. The queue is never touched.
   */
  predicate PendingFileStep(client: Client, fkey: string, b: Snapshot, a: Snapshot)
  {
    && a.chats == b.chats
    && b.sent <= a.sent
    && (if !(fkey in b.pendingFiles && b.pendingFiles[fkey].receiverID == client.id) then a == b
        else
          var f := b.pendingFiles[fkey];
          var notify := (client.conn, FileNotify(f.filename, FormatInt(f.fileSize), f.senderID));
          || (&& f.filePath in b.files
              && Served(b.sent, a.sent, notify, b.files[f.filePath])
              && a.files == b.files - {f.filePath}
              && a.pendingFiles == b.pendingFiles - {fkey})
          || (a.files == b.files && a.pendingFiles == b.pendingFiles && FirstWrite(b.sent, a.sent, notify)))
  }

  /**
   * A text row `logid` replayed as `out`: a failed write changes nothing; a
   * successful one appends `out` for the client and then deletes the row, or
   * keeps it when the delete fails. Files and stash are never touched.
   */
  predicate TextRowStep(client: Client, logid: nat, out: Out, b: Snapshot, a: Snapshot)
  {
    && a.files == b.files && a.pendingFiles == b.pendingFiles
    && (|| a == b
        || (a.sent == b.sent + [(client.conn, out)] && (a.chats == b.chats || a.chats == b.chats - {logid})))
  }

  /** A text row's step only ever appends to the log and only ever deletes its own row. */
  lemma TextRowStepEffect(client: Client, logid: nat, out: Out, b: Snapshot, a: Snapshot)
    requires TextRowStep(client, logid, out, b, a)
    ensures b.sent <= a.sent && |a.sent| <= |b.sent| + 1
    ensures |a.sent| == |b.sent| + 1 ==> a.sent[|b.sent|] == (client.conn, out)
    ensures a.chats.Keys <= b.chats.Keys && a.chats.Keys + {logid} >= b.chats.Keys
    ensures forall id :: id in a.chats ==> a.chats[id] == b.chats[id]
  {
  }

  // ------------------------------------------------------------ the engine

  class Engine {
    /** The database tables. */
    const store: Store
    /** `json.Unmarshal` of a frame: a JSON value, or none when the bytes are not JSON. */
    const parse: seq<Byte> -> Option<Json>
    /** `time.Time.String` of a clock reading. */
    const formatTime: int -> string

    /** `user.Manager.Clients`: the connection each logged-in user id was last registered with. */
    var registry: map<string, ConnId>
    /** Every successful write, in order, with the connection it went to. */
    var sent: seq<(ConnId, Out)>
    /** `pendingFiles`: stashed files by key. */
    var pendingFiles: map<string, FileStorage>
    /** The file system under the storage directory: content by path. */
    var files: map<string, seq<Byte>>
    /** The wall clock, in nanoseconds; it never goes back. */
    var clock: int

    ghost predicate Valid()
      reads store
    {
      store.Valid()
    }

    constructor (store: Store, parse: seq<Byte> -> Option<Json>, formatTime: int -> string)
      requires store.Valid()
      ensures Valid() && this.store == store && this.parse == parse && this.formatTime == formatTime
      ensures registry == map[] && sent == [] && pendingFiles == map[] && files == map[]
    {
      this.store := store;
      this.parse := parse;
      this.formatTime := formatTime;
      registry, sent, pendingFiles, files, clock := map[], [], map[], map[], 0;
    }

    /** `time.Now()`. */
    method Now() returns (t: int)
      modifies this`clock
      ensures old(clock) <= t == clock
    {
      var d: nat :| true;
      clock := clock + d;
      t := clock;
    }

    /** `conn.Write` of one message; a failed write leaves nothing in the log. */
    method Write(c: ConnId, o: Out) returns (ok: bool)
      modifies this`sent
      ensures ok ==> sent == old(sent) + [(c, o)]
      ensures !ok ==> sent == old(sent)
    {
      ok :| true;
      if ok {
        sent := sent + [(c, o)];
      }
    }

    /** `os.Create`: an empty file at `path`, or a failure. */
    method CreateFile(path: string) returns (ok: bool)
      modifies this`files
      ensures ok ==> files == old(files)[path := []]
      ensures !ok ==> files == old(files)
    {
      ok :| true;
      if ok {
        files := files[path := []];
      }
    }

    /** `file.Write` to a file opened by `CreateFile`. */
    method AppendFile(path: string, data: seq<Byte>) returns (ok: bool)
      requires path in files
      modifies this`files
      ensures ok ==> files == old(files)[path := old(files)[path] + data]
      ensures !ok ==> files == old(files)
    {
      ok :| true;
      if ok {
        files := files[path := files[path] + data];
      }
    }

    /** `os.Remove`. */
    method RemoveFile(path: string)
      modifies this`files
      ensures files == old(files) - {path}
    {
      files := files - {path};
    }

    /** `os.Open`: fails when there is no such file, and may fail anyway. */
    method OpenFile(path: string) returns (ok: bool)
      ensures ok ==> path in files
    {
      ok :| true;
      ok := ok && path in files;
    }

    // ---------------------------------------------------------------- login

    /**
     * The login request a first read carries: the bytes from the first `{` on,
     * decoded, with type "login". None when the read fails, has no `{`, does not
     * decode or is of another type.
     */
    function LoginRequestOf(input: seq<ReadResult>): Option<LoginRequest>
    {
      match Read(input, LoginBufferSize).0
      case None => None
      case Some(raw) =>
        var start := IndexByte(raw, OpenBrace);
        if start < 0 then None
        else match parse(raw[start..])
          case None => None
          case Some(v) =>
            match DecodeLogin(v)
            case None => None
            case Some(req) => if req.typ == "login" then Some(req) else None
    }

    /**
     * The reading half of `handleLogin`: one read of up to 1024 bytes, cut at its
     * first `{`, decoded, and checked to be a login request. None of these
     * failures writes a response.
     */
    method ReadLoginRequest(input: seq<ReadResult>) returns (req: Option<LoginRequest>, rest: seq<ReadResult>)
      ensures req == LoginRequestOf(input)
      ensures rest == Read(input, LoginBufferSize).1
      ensures req.Some? ==> req.value.typ == "login"
    {
      var r := Read(input, LoginBufferSize);
      rest := r.1;
      if r.0.None? {
        return None, rest;
      }
      var rawData := r.0.value;
      var startIdx := IndexByte(rawData, OpenBrace);
      if startIdx == -1 {
        return None, rest;
      }
      var cleanData := rawData[startIdx..];
      var v := parse(cleanData);
      if v.None? {
        return None, rest;
      }
      var loginReq := DecodeLogin(v.value);
      if loginReq.None? || loginReq.value.typ != "login" {
        return None, rest;
      }
      req := loginReq;
    }

    /**
     * The checking half of `handleLogin`: an unknown name or a wrong password gets
     * a failure response; a matching password marks the account online with the
     * connection's address and registers the connection under the decimal id,
     * replacing any earlier connection of that id, and answers "id:" + id. A
     * response that cannot be written is ignored.
     */
    method Authenticate(conn: ConnId, ip: string, req: LoginRequest) returns (client: Option<Client>)
      requires Valid()
      modifies this`registry, this`sent, this`clock, store`users
      ensures Valid()
      ensures client.None? ==> registry == old(registry) && store.users == old(store.users)
      ensures old(store.FindUserByName(req.name)).None? ==>
        client.None? && WroteAtMost(old(sent), sent, conn, LoginResponse(false, LoginUnknownUser))
      ensures old(store.FindUserByName(req.name)).Some? && old(store.FindUserByName(req.name)).value.password != req.pwd ==>
        client.None? && WroteAtMost(old(sent), sent, conn, LoginResponse(false, LoginWrongPassword))
      ensures old(store.FindUserByName(req.name)).Some? && old(store.FindUserByName(req.name)).value.password == req.pwd && client.None? ==>
        WroteAtMost(old(sent), sent, conn, LoginResponse(false, LoginServerError))
      ensures client.Some? ==>
        && old(store.FindUserByName(req.name)).Some?
        && var u := old(store.FindUserByName(req.name)).value;
        && u.password == req.pwd
        && 1 <= u.id <= |old(store.users)|
        && client.value == Client(conn, Itoa(u.id), ip)
        && registry == old(registry)[Itoa(u.id) := conn]
        && store.users == old(store.users)[u.id - 1 := u.(status := 1, ip := ip, leaveTime := clock)]
        && WroteAtMost(old(sent), sent, conn, LoginResponse(true, "id:" + Itoa(u.id)))
      ensures client.Some? ==> Atoi(client.value.id).Some?
    {
      var userRecord := store.FindUserByName(req.name);
      if userRecord.None? {
        var _ := Write(conn, LoginResponse(false, LoginUnknownUser));
        return None;
      }
      var u := userRecord.value;
      if u.password != req.pwd {
        var _ := Write(conn, LoginResponse(false, LoginWrongPassword));
        return None;
      }
      var now := Now();
      var saved := store.MarkOnline(u.id, ip, now);
      if !saved {
        var _ := Write(conn, LoginResponse(false, LoginServerError));
        return None;
      }
      var id := Itoa(u.id);
      registry := registry[id := conn];
      var _ := Write(conn, LoginResponse(true, "id:" + id));
      client := Some(Client(conn, id, ip));
      AtoiOfItoa(u.id);
    }

    // ---------------------------------------------------------- friend list

    /**
     * The loop of `setupFriendList`: for each index from 1 whose status is the
     * friend code and whose account exists, one entry, in index order.
     */
    method CollectFriends(friendStatuses: seq<int>) returns (friends: seq<FriendInfo>)
      requires Valid() && |friendStatuses| >= 1
      ensures friends == FriendEntries(store.users, FriendIds(friendStatuses, |store.users|, |friendStatuses|))
    {
      friends := [];
      var i := 1;
      ghost var ids: seq<nat> := [];
      while i < |friendStatuses|
        invariant 1 <= i <= |friendStatuses|
        invariant ids == FriendIds(friendStatuses, |store.users|, i)
        invariant friends == FriendEntries(store.users, ids)
      {
        FriendIdsStep(friendStatuses, |store.users|, i);
        if friendStatuses[i] == Friend {
          var friend := store.FindUserById(i);
          if friend.Some? {
            EntriesAppend(store.users, ids, i);
            friends := friends + [FriendInfo(Itoa(i), friend.value.name, friendStatuses[i], friend.value.status == 1)];
            ids := ids + [i];
          }
        }
        i := i + 1;
      }
    }

    /**
     * `setupFriendList`: decodes the user's relation vector and writes the list of
     * its friends that have accounts. Fails, writing nothing, when the user has no
     * row; fails when the write fails.
     */
    method SetupFriendList(client: Client) returns (friends: seq<FriendInfo>, ok: bool)
      requires Valid() && Atoi(client.id).Some?
      modifies this`sent
      ensures var u := store.FindUserById(Atoi(client.id).value);
        && (u.None? ==> !ok && sent == old(sent))
        && (u.Some? ==>
              && friends == FriendList(u.value.relation, store.users)
              && (ok ==> sent == old(sent) + [(client.conn, FriendListOut(friends))])
              && (!ok ==> sent == old(sent)))
    {
      var num := Atoi(client.id).value;
      var userRecord := store.FindUserById(num);
      if userRecord.None? {
        return [], false;
      }
      var relation := userRecord.value.relation;
      var friendStatuses := AnalyzeRelationByte(relation);
      friendStatuses := friendStatuses[0 := userRecord.value.id];
      friends := CollectFriends(friendStatuses);
      FriendIdsIgnoreSlotZero(Decoded(relation), userRecord.value.id, |store.users|, |friendStatuses|);
      ok := Write(client.conn, FriendListOut(friends));
    }

    // -------------------------------------------------------- offline replay

    /** The message a queued row is replayed as. */
    function Replayed(c: Unsendchat): ChatMessage
    {
      ChatMessage("message", c.content, c.reciveid, formatTime(c.sendTime), c.sendid)
    }

    /** Row `id` was one of `chats`, a text row, and its message is in `log` for `conn`. */
    ghost predicate DeliveredIn(id: nat, chats: seq<Unsendchat>, conn: ConnId, log: seq<(ConnId, Out)>)
    {
      exists k :: 0 <= k < |chats| && chats[k].logid == id && !IsFileRow(chats[k])
        && (conn, ChatOut(Replayed(chats[k]))) in log
    }

    lemma DeliveredGrows(id: nat, chats: seq<Unsendchat>, conn: ConnId, log: seq<(ConnId, Out)>, log': seq<(ConnId, Out)>)
      requires DeliveredIn(id, chats, conn, log) && log <= log'
      ensures DeliveredIn(id, chats, conn, log')
    {
      var k :| 0 <= k < |chats| && chats[k].logid == id && !IsFileRow(chats[k])
        && (conn, ChatOut(Replayed(chats[k]))) in log;
      assert (conn, ChatOut(Replayed(chats[k]))) in log';
    }

    /** The replay-relevant part of the current state. */
    ghost function Snap(): Snapshot
      reads this, store
    {
      Snapshot(sent, files, pendingFiles, store.chats)
    }

    /**
     * One queued row's replay: a file row hands the text after "file:" to
     * `checkPendingFiles` as the key; a text row is written as its `Replayed`
     * message and then deleted.
     */
    ghost predicate RowReplay(client: Client, chat: Unsendchat, b: Snapshot, a: Snapshot)
    {
      if IsFileRow(chat) then PendingFileStep(client, TrimPrefix(chat.content, FilePrefix), b, a)
      else TextRowStep(client, chat.logid, ChatOut(Replayed(chat)), b, a)
    }

    /**
     * `trace` holds the state before each of the first `n` rows and after the
     * last of them, and row `k` moves `trace[k]` to `trace[k + 1]`: the rows are
     * processed one by one in the given order, whatever became of earlier rows.
     */
    ghost predicate ReplayTrace(client: Client, chats: seq<Unsendchat>, trace: seq<Snapshot>, n: nat)
    {
      && n <= |chats| && |trace| == n + 1
      && forall k :: 0 <= k < n ==> RowReplay(client, chats[k], trace[k], trace[k + 1])
    }

    lemma ReplayTraceExtend(client: Client, chats: seq<Unsendchat>, trace: seq<Snapshot>, n: nat, after: Snapshot)
      requires ReplayTrace(client, chats, trace, n) && n < |chats|
      requires RowReplay(client, chats[n], trace[n], after)
      ensures ReplayTrace(client, chats, trace + [after], n + 1)
    {
      var t := trace + [after];
      forall k | 0 <= k < n + 1
        ensures RowReplay(client, chats[k], t[k], t[k + 1])
      {
        if k < n {
          assert t[k] == trace[k] && t[k + 1] == trace[k + 1];
        }
      }
    }

    /** What one row's replay can do to the log and the queue. */
    lemma RowReplayEffect(client: Client, chat: Unsendchat, b: Snapshot, a: Snapshot)
      requires RowReplay(client, chat, b, a)
      ensures b.sent <= a.sent
      ensures forall id :: id in a.chats ==> id in b.chats && a.chats[id] == b.chats[id]
      ensures forall id :: id in b.chats && id !in a.chats ==>
        id == chat.logid && !IsFileRow(chat) && (client.conn, ChatOut(Replayed(chat))) in a.sent
    {
      if !IsFileRow(chat) {
        TextRowStepEffect(client, chat.logid, ChatOut(Replayed(chat)), b, a);
      }
    }

    /**
     * Over a whole replay: the log only grows, no row is changed or added, a row
     * is gone only if it is a text row whose message reached the client, and a
     * file row is never deleted.
     */
    lemma {:induction false} ReplayTraceEffect(client: Client, chats: seq<Unsendchat>, trace: seq<Snapshot>, n: nat)
      requires ReplayTrace(client, chats, trace, n)
      requires forall c :: c in chats && c.logid in trace[0].chats ==> trace[0].chats[c.logid] == c
      ensures trace[0].sent <= trace[n].sent
      ensures forall id :: id in trace[n].chats ==> id in trace[0].chats && trace[n].chats[id] == trace[0].chats[id]
      ensures forall id :: id in trace[0].chats && id !in trace[n].chats ==> DeliveredIn(id, chats, client.conn, trace[n].sent)
      ensures forall c :: c in chats && IsFileRow(c) && c.logid in trace[0].chats ==> c.logid in trace[n].chats
      decreases n
    {
      if n > 0 {
        var prefix := trace[..n];
        assert ReplayTrace(client, chats, prefix, n - 1) by {
          forall k | 0 <= k < n - 1
            ensures RowReplay(client, chats[k], prefix[k], prefix[k + 1])
          {
            assert prefix[k] == trace[k] && prefix[k + 1] == trace[k + 1];
          }
        }
        ReplayTraceEffect(client, chats, prefix, n - 1);
        assert prefix[0] == trace[0] && prefix[n - 1] == trace[n - 1];
        RowReplayEffect(client, chats[n - 1], trace[n - 1], trace[n]);
        forall id | id in trace[0].chats && id !in trace[n].chats
          ensures DeliveredIn(id, chats, client.conn, trace[n].sent)
        {
          if id in trace[n - 1].chats {
            assert chats[n - 1].logid == id;
          } else {
            DeliveredGrows(id, chats, client.conn, trace[n - 1].sent, trace[n].sent);
          }
        }
      }
    }

    /** The body of the replay loop, for one queued row. */
    method ReplayRow(client: Client, chat: Unsendchat)
      requires Valid()
      modifies this`sent, this`files, this`pendingFiles, store`chats
      ensures Valid()
      ensures RowReplay(client, chat, old(Snap()), Snap())
    {
      var chatMsg := Replayed(chat);
      if HasPrefix(chatMsg.content, FilePrefix) {
        var filekey := TrimPrefix(chatMsg.content, FilePrefix);
        var _ := CheckPendingFiles(client, filekey);
      } else {
        var written := Write(client.conn, ChatOut(chatMsg));
        if written {
          var _ := store.DeleteUnsendChat(chat.logid);
        }
      }
    }

    /**
     * The replay loop of `HandleConnection`: each queued row in turn. A file row
     * hands its key to `CheckPendingFiles` and is never deleted; a text row is
     * written to the client and deleted only once the write succeeded. A failure
     * on one row does not stop the loop.
     */
    method ReplayOffline(client: Client, chats: seq<Unsendchat>) returns (ghost trace: seq<Snapshot>)
      requires Valid()
      requires forall c :: c in chats && c.logid in store.chats ==> store.chats[c.logid] == c
      modifies this`sent, this`files, this`pendingFiles, store`chats
      ensures Valid()
      ensures ReplayTrace(client, chats, trace, |chats|)
      ensures trace[0] == old(Snap()) && trace[|chats|] == Snap()
      ensures old(sent) <= sent
      ensures forall id :: id in store.chats ==> id in old(store.chats) && store.chats[id] == old(store.chats)[id]
      ensures forall id :: id in old(store.chats) && id !in store.chats ==> DeliveredIn(id, chats, client.conn, sent)
      ensures forall c :: c in chats && IsFileRow(c) && c.logid in old(store.chats) ==> c.logid in store.chats
    {
      var i := 0;
      trace := [Snap()];
      while i < |chats|
        invariant 0 <= i <= |chats| && Valid()
        invariant ReplayTrace(client, chats, trace, i)
        invariant trace[0] == old(Snap()) && trace[i] == Snap()
      {
        var chat := chats[i];
        ReplayRow(client, chat);
        ReplayTraceExtend(client, chats, trace, i, Snap());
        trace := trace + [Snap()];
        i := i + 1;
      }
      ReplayTraceEffect(client, chats, trace, |chats|);
    }

    // --------------------------------------------------------- file retrieval

    /**
     * The chunked send of `checkPendingFiles`: reads of up to 1 MiB from the stored
     * file until one returns nothing, each written to `conn` as it is read. A read
     * error or a write error stops it.
     */
    method SendFileData(conn: ConnId, content: seq<Byte>) returns (err: Option<Fault>)
      modifies this`sent
      ensures err.None? ==> sent == old(sent) + DataOuts(conn, ChunksOf(content, FileBufferSize))
      ensures err.Some? ==> err.value in {ReadFailed, WriteFailed} && old(sent) <= sent
    {
      var pos := 0;
      ghost var done: seq<seq<Byte>> := [];
      assert content[0..] == content;
      while pos < |content|
        invariant 0 <= pos <= |content|
        invariant ChunkedUpTo(content, pos, FileBufferSize, done)
        invariant sent == old(sent) + DataOuts(conn, done)
        decreases |content| - pos
      {
        var readOk: bool :| true;
        if !readOk {
          return Some(ReadFailed);
        }
        var n := if |content| - pos < FileBufferSize then |content| - pos else FileBufferSize;
        var chunk := content[pos..pos + n];
        ghost var before := sent;
        var ok := Write(conn, FileData(chunk));
        if !ok {
          return Some(WriteFailed);
        }
        SentGrows(old(sent), before, sent, conn, done, chunk);
        ChunksAdvance(content, pos, FileBufferSize, done, n);
        done := done + [chunk];
        pos := pos + n;
      }
      assert content[pos..] == [];
      assert done + [] == done;
      return None;
    }

    /**
     * `checkPendingFiles`: serves the stashed file `fkey` if it is addressed to this
     * client: a `file_notify` first, then the file's bytes in 1 MiB writes; the
     * file and its entry are removed only after the last write. On any failure
     * both stay. Any other key is left alone.
     */
    method CheckPendingFiles(client: Client, fkey: string) returns (err: Option<Fault>)
      modifies this`sent, this`files, this`pendingFiles
      ensures old(sent) <= sent
      ensures !(fkey in old(pendingFiles) && old(pendingFiles)[fkey].receiverID == client.id) ==>
        err.None? && sent == old(sent) && files == old(files) && pendingFiles == old(pendingFiles)
      ensures fkey in old(pendingFiles) && old(pendingFiles)[fkey].receiverID == client.id ==>
        var f := old(pendingFiles)[fkey];
        var notify := (client.conn, FileNotify(f.filename, FormatInt(f.fileSize), f.senderID));
        && (err.None? ==>
              && f.filePath in old(files)
              && Served(old(sent), sent, notify, old(files)[f.filePath])
              && files == old(files) - {f.filePath}
              && pendingFiles == old(pendingFiles) - {fkey})
        && (err.Some? ==>
              && files == old(files) && pendingFiles == old(pendingFiles)
              && FirstWrite(old(sent), sent, notify))
    {
      if !(fkey in pendingFiles && pendingFiles[fkey].receiverID == client.id) {
        return None;
      }
      var file := pendingFiles[fkey];
      var notify := FileNotify(file.filename, FormatInt(file.fileSize), file.senderID);
      var ok := Write(client.conn, notify);
      if !ok {
        return Some(NotifyFailed);
      }
      var fileOpen := OpenFile(file.filePath);
      if !fileOpen {
        return Some(OpenFailed);
      }
      ghost var notified := sent;
      var sendErr := SendFileData(client.conn, files[file.filePath]);
      if sendErr.Some? {
        assert sent[|old(sent)|] == notified[|old(sent)|];
        return sendErr;
      }
      RemoveFile(file.filePath);
      pendingFiles := pendingFiles - {fkey};
      err := None;
    }

    // ---------------------------------------------------------- chat routing

    /**
     * The "message" case of `handleMessage`: the decoded message, its sender
     * overwritten with the session's id, goes to the receiver's connection when the
     * receiver is registered, and is queued for the receiver otherwise, never both.
     */
    method HandleChat(client: Client, v: Json) returns (err: Option<Fault>)
      requires Valid()
      modifies this`sent, this`clock, store`chats, store`nextLogId
      ensures Valid()
      ensures DecodeChat(v).None? ==> err == Some(BadChat) && sent == old(sent) && store.chats == old(store.chats)
      ensures DecodeChat(v).Some? && DecodeChat(v).value.receiveID in registry ==>
        var msg := DecodeChat(v).value.(sendID := client.id);
        && store.chats == old(store.chats)
        && WroteAtMost(old(sent), sent, registry[msg.receiveID], ChatOut(msg))
        && (err.None? <==> sent != old(sent))
        && (err.Some? ==> err.value == ForwardFailed)
      ensures DecodeChat(v).Some? && DecodeChat(v).value.receiveID !in registry ==>
        var msg := DecodeChat(v).value;
        && sent == old(sent)
        && (err.None? ==>
              store.chats == old(store.chats)[old(store.nextLogId) := Unsendchat(old(store.nextLogId), client.id, msg.receiveID, msg.content, clock)])
        && (err.Some? ==> err.value == QueueFailed && store.chats == old(store.chats))
    {
      var chatMsg := DecodeChat(v);
      if chatMsg.None? {
        return Some(BadChat);
      }
      var msg := chatMsg.value.(sendID := client.id);
      if msg.receiveID in registry {
        var ok := Write(registry[msg.receiveID], ChatOut(msg));
        err := if ok then None else Some(ForwardFailed);
      } else {
        var now := Now();
        var queued := store.CreateUnsendChat(msg.sendID, msg.receiveID, msg.content, now);
        err := if queued then None else Some(QueueFailed);
      }
    }

    // ------------------------------------------------------ account changes

    /**
     * `handleChangePassword`: the session id must parse, the request decode, the
     * account exist and the old password match; then the new password is stored.
     * Every outcome answers with one `changepwd_response`; the handler's error is
     * the step that failed, or the failed write of the answer.
     */
    method HandleChangePassword(client: Client, v: Json) returns (err: Option<Fault>)
      requires Valid()
      modifies this`sent, store`users
      ensures Valid()
      ensures var check := PasswordCheck(Atoi(client.id), DecodeChangePassword(v), old(store.users));
        && (check.Some? ==>
              && store.users == old(store.users)
              && WroteAtMost(old(sent), sent, client.conn, ChangePwdResponse("fail", PasswordFailure(check.value)))
              && err == (if sent == old(sent) then Some(ResponseFailed) else check))
        && (check.None? ==>
              var id := Atoi(client.id).value;
              || (&& store.users == old(store.users)[id - 1 := old(store.users)[id - 1].(password := DecodeChangePassword(v).value.1)]
                  && WroteAtMost(old(sent), sent, client.conn, ChangePwdResponse("success", PasswordChanged))
                  && err == (if sent == old(sent) then Some(ResponseFailed) else None))
              || (&& store.users == old(store.users)
                  && WroteAtMost(old(sent), sent, client.conn, ChangePwdResponse("fail", PasswordBusy))
                  && err == (if sent == old(sent) then Some(ResponseFailed) else Some(UpdateFailed))))
    {
      var check := PasswordCheck(Atoi(client.id), DecodeChangePassword(v), store.users);
      if check.Some? {
        var ok := Write(client.conn, ChangePwdResponse("fail", PasswordFailure(check.value)));
        return if ok then check else Some(ResponseFailed);
      }
      var id := Atoi(client.id).value;
      var req := DecodeChangePassword(v).value;
      var updated := store.ChangePassword(id, req.1);
      if !updated {
        var ok := Write(client.conn, ChangePwdResponse("fail", PasswordBusy));
        return if ok then Some(UpdateFailed) else Some(ResponseFailed);
      }
      var ok := Write(client.conn, ChangePwdResponse("success", PasswordChanged));
      err := if ok then None else Some(ResponseFailed);
    }

    /**
     * `handleChangeName`: the session id must parse and the request decode; then
     * the name is stored. There is no lookup: an id without an account changes no
     * row and is still answered "success".
     */
    method HandleChangeName(client: Client, v: Json) returns (err: Option<Fault>)
      requires Valid()
      modifies this`sent, store`users
      ensures Valid()
      ensures var id := Atoi(client.id); var name := DecodeChangeName(v);
        && (id.None? || name.None? ==>
              && store.users == old(store.users)
              && WroteAtMost(old(sent), sent, client.conn, ChangeNameResponse("fail"))
              && err == (if sent == old(sent) then Some(ResponseFailed) else if id.None? then Some(BadUserId) else Some(BadRequest)))
        && (id.Some? && name.Some? ==>
              || (&& store.users == Renamed(old(store.users), id.value, name.value)
                  && WroteAtMost(old(sent), sent, client.conn, ChangeNameResponse("success"))
                  && err == (if sent == old(sent) then Some(ResponseFailed) else None))
              || (&& store.users == old(store.users)
                  && WroteAtMost(old(sent), sent, client.conn, ChangeNameResponse("fail"))
                  && err == (if sent == old(sent) then Some(ResponseFailed) else Some(UpdateFailed))))
    {
      var id := Atoi(client.id);
      if id.None? {
        var ok := Write(client.conn, ChangeNameResponse("fail"));
        return if ok then Some(BadUserId) else Some(ResponseFailed);
      }
      var name := DecodeChangeName(v);
      if name.None? {
        var ok := Write(client.conn, ChangeNameResponse("fail"));
        return if ok then Some(BadRequest) else Some(ResponseFailed);
      }
      var updated := store.ChangeName(id.value, name.value);
      if !updated {
        var ok := Write(client.conn, ChangeNameResponse("fail"));
        return if ok then Some(UpdateFailed) else Some(ResponseFailed);
      }
      var ok := Write(client.conn, ChangeNameResponse("success"));
      err := if ok then None else Some(ResponseFailed);
    }

    // --------------------------------------------------------- file transfer

    /**
     * The copy loop of `forwardFileToReceiver`: while fewer than `size` bytes have
     * come, one read of up to 1 MiB from the sender, written as it is to the
     * receiver. A failed read or write stops it.
     */
    method RelayChunks(receiver: ConnId, size: int, input: seq<ReadResult>)
      returns (err: Option<Fault>, rest: seq<ReadResult>, ghost chunks: seq<seq<Byte>>)
      modifies this`sent
      ensures StreamSize(rest) <= StreamSize(input)
      ensures sent == old(sent) + DataOuts(receiver, chunks)
      ensures err.None? ==> Copied(input, rest, chunks, size)
      ensures err == None || err == Some(ReadFailed) || err == Some(WriteFailed)
    {
      var received := 0;
      rest := input;
      chunks := [];
      while received < size
        invariant CopiedSoFar(input, rest, chunks, size, received)
        invariant sent == old(sent) + DataOuts(receiver, chunks)
        decreases StreamSize(rest)
      {
        var r := Read(rest, FileBufferSize);
        if r.0.None? {
          return Some(ReadFailed), r.1, chunks;
        }
        var data := r.0.value;
        ghost var before := sent;
        var ok := Write(receiver, FileData(data));
        if !ok {
          return Some(WriteFailed), r.1, chunks;
        }
        SentGrows(old(sent), before, sent, receiver, chunks, data);
        CopyStep(input, rest, chunks, size, received);
        chunks := chunks + [data];
        received := received + |data|;
        rest := r.1;
      }
      CopyDone(input, rest, chunks, size, received);
      err := None;
    }

    /**
     * `forwardFileToReceiver`: a `file_notify` carrying the header's name, its size
     * text and its sender id, then the relayed bytes. Nothing is relayed when the
     * notice cannot be written.
     */
    method ForwardFile(receiver: ConnId, h: FileHeader, size: int, input: seq<ReadResult>)
      returns (err: Option<Fault>, rest: seq<ReadResult>, ghost chunks: seq<seq<Byte>>)
      modifies this`sent
      ensures StreamSize(rest) <= StreamSize(input)
      ensures var notify := (receiver, FileNotify(h.filename, h.size, h.sendID));
        && (err == Some(NotifyFailed) <==> sent == old(sent))
        && (err == Some(NotifyFailed) ==> rest == input)
        && (err.None? ==> Copied(input, rest, chunks, size))
        && (err == None || err == Some(NotifyFailed) || err == Some(ReadFailed) || err == Some(WriteFailed))
        && (err != Some(NotifyFailed) ==> sent == old(sent) + [notify] + DataOuts(receiver, chunks))
    {
      var notify := FileNotify(h.filename, h.size, h.sendID);
      var ok := Write(receiver, notify);
      if !ok {
        return Some(NotifyFailed), input, [];
      }
      err, rest, chunks := RelayChunks(receiver, size, input);
    }

    /**
     * The copy loop of `storePendingFile`: while fewer than `size` bytes have come,
     * one read of up to 1 MiB from the sender, appended to the file at `path`. A
     * failed read or write removes the file.
     */
    method CopyToFile(path: string, size: int, input: seq<ReadResult>)
      returns (err: Option<Fault>, rest: seq<ReadResult>, received: int, ghost chunks: seq<seq<Byte>>)
      requires path in files && files[path] == []
      modifies this`files
      ensures StreamSize(rest) <= StreamSize(input)
      ensures err.None? ==> Copied(input, rest, chunks, size) && received == |Flatten(chunks)|
      ensures err.None? ==> files == old(files)[path := Flatten(chunks)]
      ensures err.Some? ==> (err == Some(ReadFailed) || err == Some(WriteFailed)) && files == old(files) - {path}
    {
      received := 0;
      rest := input;
      chunks := [];
      assert files == old(files)[path := Flatten(chunks)];
      while received < size
        invariant CopiedSoFar(input, rest, chunks, size, received)
        invariant files == old(files)[path := Flatten(chunks)]
        decreases StreamSize(rest)
      {
        var r := Read(rest, FileBufferSize);
        if r.0.None? {
          RemoveFile(path);
          return Some(ReadFailed), r.1, received, chunks;
        }
        var data := r.0.value;
        var ok := AppendFile(path, data);
        if !ok {
          RemoveFile(path);
          return Some(WriteFailed), r.1, received, chunks;
        }
        FlattenAppend(chunks, data);
        CopyStep(input, rest, chunks, size, received);
        chunks := chunks + [data];
        received := received + |data|;
        rest := r.1;
      }
      CopyDone(input, rest, chunks, size, received);
      err := None;
    }

    /**
     * `storePendingFile`: the bytes go to a new file named after sender, receiver,
     * the current time in nanoseconds and the file name; once all have come, the
     * file is registered under that key and a "file:" row carrying the key is queued
     * for the receiver (a failure to queue it is ignored). A failure before that
     * registers and queues nothing.
     */
    method StorePendingFile(h: FileHeader, size: int, input: seq<ReadResult>)
      returns (err: Option<Fault>, rest: seq<ReadResult>, key: string, ghost nanos: int, ghost chunks: seq<seq<Byte>>)
      requires Valid()
      modifies this`files, this`pendingFiles, this`clock, store`chats, store`nextLogId
      ensures Valid()
      ensures StreamSize(rest) <= StreamSize(input)
      ensures old(clock) <= nanos && key == FileKey(h, nanos)
      ensures err.Some? ==>
        && (err.value == CreateFailed || err.value == ReadFailed || err.value == WriteFailed)
        && pendingFiles == old(pendingFiles) && store.chats == old(store.chats)
        && files == (if err.value == CreateFailed then old(files) else old(files) - {FileStoragePath + key})
      ensures err.None? ==>
        && Copied(input, rest, chunks, size)
        && files == old(files)[FileStoragePath + key := Flatten(chunks)]
        && key in pendingFiles
        && pendingFiles == old(pendingFiles)[key := pendingFiles[key]]
        && Stashed(pendingFiles[key], h, FileStoragePath + key, size, |Flatten(chunks)|)
        && QueuedFileRow(old(store.chats), store.chats, old(store.nextLogId), h, key)
    {
      var now := Now();
      nanos := now;
      key := FileKey(h, now);
      var filePath := FileStoragePath + key;
      var created := CreateFile(filePath);
      if !created {
        return Some(CreateFailed), input, key, now, [];
      }
      var received;
      err, rest, received, chunks := CopyToFile(filePath, size, input);
      RemoveUpdated(old(files), filePath, []);
      UpdateTwice(old(files), filePath, [], Flatten(chunks));
      if err.None? {
        RegisterStoredFile(h, key, filePath, size, received);
      }
    }

    /** The end of `storePendingFile`: the entry for the stored file, then the queued "file:" row. */
    method RegisterStoredFile(h: FileHeader, key: string, path: string, size: int, received: int)
      requires Valid()
      modifies this`pendingFiles, this`clock, store`chats, store`nextLogId
      ensures Valid()
      ensures key in pendingFiles && pendingFiles == old(pendingFiles)[key := pendingFiles[key]]
      ensures Stashed(pendingFiles[key], h, path, size, received)
      ensures QueuedFileRow(old(store.chats), store.chats, old(store.nextLogId), h, key)
    {
      var sendTime := Now();
      pendingFiles := pendingFiles[key := FileStorage(h.filename, path, size, received, sendTime, h.sendID, h.receiveID)];
      var now := Now();
      var _ := store.CreateUnsendChat(h.sendID, h.receiveID, FilePrefix + key, now);
    }

    /**
     * `handleFileTransfer`: the header must decode and its size parse; the file is
     * then relayed when the receiver is registered and stored for it otherwise,
     * never both. The rest of the stream is what the copy loop left.
     */
    method HandleFileTransfer(v: Json, input: seq<ReadResult>) returns (err: Option<Fault>, rest: seq<ReadResult>)
      requires Valid()
      modifies this`sent, this`files, this`pendingFiles, this`clock, store`chats, store`nextLogId
      ensures Valid()
      ensures StreamSize(rest) <= StreamSize(input)
      ensures DecodeFileHeader(v).None? ==> err == Some(BadFileHeader) && rest == input && unchanged(this, store)
      ensures DecodeFileHeader(v).Some? && Atoi(DecodeFileHeader(v).value.size).None? ==>
        err == Some(BadFileSize) && rest == input && unchanged(this, store)
      ensures DecodeFileHeader(v).Some? && Atoi(DecodeFileHeader(v).value.size).Some? ==>
        var h := DecodeFileHeader(v).value;
        && (h.receiveID in registry ==>
              && files == old(files) && pendingFiles == old(pendingFiles) && store.chats == old(store.chats)
              && FirstWrite(old(sent), sent, (registry[h.receiveID], FileNotify(h.filename, h.size, h.sendID))))
        && (h.receiveID !in registry ==> sent == old(sent))
    {
      var header := DecodeFileHeader(v);
      if header.None? {
        return Some(BadFileHeader), input;
      }
      var h := header.value;
      var fileSize := Atoi(h.size);
      if fileSize.None? {
        return Some(BadFileSize), input;
      }
      if h.receiveID in registry {
        ghost var chunks;
        err, rest, chunks := ForwardFile(registry[h.receiveID], h, fileSize.value, input);
      } else {
        var key;
        ghost var nanos, chunks;
        err, rest, key, nanos, chunks := StorePendingFile(h, fileSize.value, input);
      }
    }

    // --------------------------------------------------------------- dispatch

    /**
     * `handleMessage`: the first balanced `{`...`}` span of the read, trimmed, must
     * be non-empty, decode, carry a string `type` and name one of the four
     * handlers; any failure before the handler changes nothing. Only a file
     * transfer reads further from the connection.
     */
    method HandleMessage(client: Client, data: seq<Byte>, input: seq<ReadResult>)
      returns (err: Option<Fault>, rest: seq<ReadResult>, ghost frame: seq<Byte>)
      requires Valid()
      modifies this`sent, this`files, this`pendingFiles, this`clock, store`users, store`chats, store`nextLogId
      ensures Valid() && IsFrame(data, frame)
      ensures StreamSize(rest) <= StreamSize(input)
      ensures var m := TrimSpace(frame); var routed := Routed(m, parse(m));
        && (routed.Failure? ==> err == Some(routed.error) && rest == input && unchanged(this, store))
        && (routed.Success? ==> HandledBy(routed.value.0, input, rest, old(files), old(pendingFiles), old(store.users), old(store.chats)))
    {
      var cleanData := ExtractFrame(data);
      frame := cleanData;
      var messageStr := TrimSpace(cleanData);
      var routed := Routed(messageStr, parse(messageStr));
      if routed.Failure? {
        return Some(routed.error), input, cleanData;
      }
      err, rest := RunHandler(client, routed.value.0, routed.value.1, input);
    }

    /** What a handler leaves alone: only a file transfer reads on or touches files, only a chat or a file queues rows, only the account handlers change accounts. */
    ghost predicate HandledBy(route: Route, input: seq<ReadResult>, rest: seq<ReadResult>,
                              files0: map<string, seq<Byte>>, pending0: map<string, FileStorage>,
                              users0: seq<User>, chats0: map<nat, Unsendchat>)
      reads this, store
    {
      && (route != FileRoute ==> rest == input && files == files0 && pendingFiles == pending0)
      && (route in {ChatRoute, FileRoute} ==> store.users == users0)
      && (route in {ChangePwdRoute, ChangeNameRoute} ==> store.chats == chats0)
    }

    /** The switch of `handleMessage`: the decoded value goes to the route's handler. */
    method RunHandler(client: Client, route: Route, v: Json, input: seq<ReadResult>)
      returns (err: Option<Fault>, rest: seq<ReadResult>)
      requires Valid()
      modifies this`sent, this`files, this`pendingFiles, this`clock, store`users, store`chats, store`nextLogId
      ensures Valid()
      ensures StreamSize(rest) <= StreamSize(input)
      ensures HandledBy(route, input, rest, old(files), old(pendingFiles), old(store.users), old(store.chats))
    {
      rest := input;
      match route {
        case ChatRoute => err := HandleChat(client, v);
        case FileRoute => err, rest := HandleFileTransfer(v, input);
        case ChangePwdRoute => err := HandleChangePassword(client, v);
        case ChangeNameRoute => err := HandleChangeName(client, v);
      }
    }

    // --------------------------------------------------------------- teardown

    /**
     * `cleanupClient`: marks the account offline, then drops the registry entry
     * under the session's id, whichever connection it now names.
     */
    method Cleanup(client: Client)
      requires Valid()
      modifies this`registry, this`clock, store`users
      ensures Valid()
      ensures registry == old(registry) - {client.id}
      ensures Offlined(old(store.users), store.users, Atoi(client.id), clock)
    {
      var now := Now();
      var id := Atoi(client.id);
      if id.Some? {
        var _ := store.UserOffline(id.value, now);
      }
      registry := registry - {client.id};
    }

    /**
     * `messageLoop`: reads of up to 4096 bytes, each handed to `HandleMessage`
     * whatever it returns, until a read fails; then the session is torn down.
     */
    method MessageLoop(client: Client, input: seq<ReadResult>)
      requires Valid()
      modifies this`registry, this`sent, this`files, this`pendingFiles, this`clock, store`users, store`chats, store`nextLogId
      ensures Valid()
      ensures registry == old(registry) - {client.id}
    {
      var rest := input;
      while true
        invariant Valid() && registry == old(registry)
        decreases StreamSize(rest)
      {
        var r := Read(rest, MessageBufferSize);
        if r.0.None? {
          Cleanup(client);
          return;
        }
        ghost var frame;
        var handled;
        handled, rest, frame := HandleMessage(client, r.0.value, r.1);
      }
    }

    // ------------------------------------------------------------- connection

    /**
     * `HandleConnection`: login, friend list, replay of the queued rows, then the
     * message loop. A failed login registers nothing; a session that fails after
     * login returns without teardown and leaves its registry entry behind; a
     * session that reaches the loop ends with its entry removed.
     */
    method HandleConnection(conn: ConnId, ip: string, input: seq<ReadResult>) returns (stage: Stage)
      requires Valid()
      modifies this`registry, this`sent, this`files, this`pendingFiles, this`clock, store`users, store`chats, store`nextLogId
      ensures Valid()
      ensures stage == LoginFailed ==> registry == old(registry)
      ensures stage != LoginFailed ==>
        && LoginRequestOf(input).Some?
        && var req := LoginRequestOf(input).value;
        && old(store.FindUserByName(req.name)).Some?
        && old(store.FindUserByName(req.name)).value.password == req.pwd
        && stage.id == Itoa(old(store.FindUserByName(req.name)).value.id)
      ensures stage.SetupFailed? ==> registry == old(registry)[stage.id := conn]
      ensures stage.Closed? ==> registry == old(registry) - {stage.id}
    {
      var req, rest := ReadLoginRequest(input);
      if req.None? {
        return LoginFailed;
      }
      var client := Authenticate(conn, ip, req.value);
      if client.None? {
        return LoginFailed;
      }
      var c := client.value;
      var looped := RunSession(c, rest);
      if looped {
        RemoveUpdated(old(registry), c.id, conn);
        stage := Closed(c.id);
      } else {
        stage := SetupFailed(c.id);
      }
    }

    /**
     * The part of `HandleConnection` after login: the friend list, the replay of
     * the queued rows, then the message loop. Reports whether the loop was reached;
     * an earlier failure returns at once and leaves the registry as it was.
     */
    method RunSession(c: Client, rest: seq<ReadResult>) returns (looped: bool)
      requires Valid() && Atoi(c.id).Some?
      modifies this`registry, this`sent, this`files, this`pendingFiles, this`clock, store`users, store`chats, store`nextLogId
      ensures Valid()
      ensures looped ==> registry == old(registry) - {c.id}
      ensures !looped ==> registry == old(registry)
    {
      var friends, listed := SetupFriendList(c);
      if !listed {
        return false;
      }
      var fetched: bool :| true;
      if !fetched {
        return false;
      }
      var chats := store.GetUnsendChatsByReciveID(c.id);
      ghost var replay := ReplayOffline(c, chats);
      MessageLoop(c, rest);
      looped := true;
    }
  }
}
