# Chat server core, modelled in Dafny

This project models the core of a Go chat server. Clients log in over a raw TCP
connection. They then exchange JSON chat messages and files. A message or file
for an offline user is queued in a MySQL table and replayed when that user next
logs in. The model covers these parts:

- **Relation vector.** Each user row holds an 8-byte `bit(64)` relation column
  with a 2-bit state per peer: none, friend, pending or blocked.
  - `RelationBits` gives the field layout.
  - The encoder `SetRelationBit` is in `DatabaseTool`.
  - The decoder `AnalyzeRelationByte` is in `FriendUpdate`. It is modelled as the
    source writes it: an append loop that scans from the head of the vector,
    followed by an in-place reversal of the tail.
  - The main result is `DatabaseTool.DecodeAfterEncode` together with
    `FriendUpdate.AnalyzeRelationByte`. The decoder's entry `k` is exactly the
    field the encoder writes for peer `k`. Writing peer `g` changes how peer `g`
    decodes and leaves every other peer as it was.
- **Database operations** (`DatabaseTool.Store`). The `User` table and the
  `Unsendchat` offline queue are abstract tables:
  - registration with the all-zero initial vector;
  - lookups by name and by id;
  - online and offline marks, password and name updates;
  - `BeFriend`;
  - queue insert and delete;
  - the receiver query, which returns every matching row exactly once, newest
    first.
- **TCP engine** (`TcpMessages`, `TcpNetwork.Engine`).
  - State:
    - the registry of logged-in connections (`user.Manager.Clients`);
    - a log of every successful write, with its connection;
    - the `pendingFiles` table;
    - the file store;
    - the clock;
    - the database tables.
  - Sockets are sequences of deliveries (`ReadResult`).
  - A write, a file operation or a database update may fail. Each is modelled as
    a nondeterministic outcome.
  - JSON decoding is a function the engine is given (`parse`). It goes from bytes
    to an abstract `Json` value, and the records are read from that value.
  - Modelled operations:
    - the brace-depth framing scan;
    - the type switch;
    - chat routing: forward if the receiver is registered, otherwise queue;
    - login and registration;
    - the friend list;
    - replay of queued rows;
    - the change-password and change-name handlers;
    - file relay and file stash;
    - serving a stashed file;
    - the message loop and teardown.
- **Admin sessions** (`LoginCheck`): the `SessionManager` table, and the access
  decision of `AuthMiddleware`.
- **Local address selection** (`InitTool`): the two first-match searches of
  `GetLocalIP` over a given interface list. `InitTool.GetLocalIPChoice` proves
  them against a reference definition: the first wanted candidate in
  interface-then-address order.

Behaviour of the code as written that the model keeps and states:

- **Registry.**
  - A second login under the same id replaces the registry entry
    (`Authenticate`).
  - Teardown deletes the entry under the session's id unconditionally, so an
    old connection's teardown removes a newer connection's entry (`Cleanup`,
    `HandleConnection`).
  - A session that fails after login (friend list or queue query) returns
    without teardown. Its registry entry and its online status stay
    (`HandleConnection`, stage `SetupFailed`).
- **Queue and files.**
  - "file:" queue rows are never deleted by replay (`ReplayOffline`).
  - The copy loops stop at the first read that reaches the declared size, and
    they copy all of that read. The byte count can therefore exceed the size
    (`Copied`).
- **Relation vectors.** `BeFriend` drops the encoder's error. A peer id beyond
  the vector's 32 fields therefore sends a nil vector to the update
  (`BefriendedState`). The model lets that update succeed and store the empty
  vector, or fail.
- **File transfers.** A file transfer's stash key uses the `sendid` that the
  client itself put in the header. The connection's id is not used (`FileKey`,
  `StorePendingFile`).
- **Account changes.** A name change performs no lookup. An id without an
  account changes no row and is still answered "success" (`HandleChangeName`).

## Model

| member | source | states |
|---|---|---|
| RelationBits.PeerState | friendupdate/relationanlysis.go:29-38 | every peer's decoded state is one of the four codes 0..3 |
| RelationBits.FieldOfBits | friendupdate/relationanlysis.go:29-38 | a field read as a bit pair (hi, lo) is worth 2·hi + lo, as the four-way append chooses |
| RelationBits.WriteRead | databasetool/handle.go:134-141 | after clearing and setting the field at one offset, that field holds the new value and the field at any other offset is unchanged |
| RelationBits.WriteWrite | databasetool/handle.go:137-141 | writing one field twice keeps only the second value |
| RelationBits.WriteCurrent | databasetool/handle.go:137-141 | writing a field's own bits back gives the same byte |
| FriendUpdate.ReadBit | friendupdate/relationanlysis.go:12-21 | the shift-and-mask read of byte `i/8`, bit `7 - i%8` is 0 or 1 and is exactly scan position `i` of a most-significant-first scan |
| FriendUpdate.ScanPairIsPeerState | friendupdate/relationanlysis.go:10-38 | the bit pair the scan reads at position `8·len - 2k` is peer `k`'s field, counted from the right end |
| FriendUpdate.ScanRelation | friendupdate/relationanlysis.go:5-39 | the append loop yields `8·len + 2` entries: `4·len + 2` zeros, then one pair value per scan step in scan order; the `userID >= len(friends)` guard never fires |
| FriendUpdate.ReverseTail | friendupdate/relationanlysis.go:41-51 | the two-index swap loop reverses entries 1..n-1 and keeps entry 0 |
| FriendUpdate.ReversedScanIsDecoded | friendupdate/relationanlysis.go:41-53 | reversing the scanned tail puts peer `k`'s state at index `k`, zero at index 0 and zero past the peers |
| FriendUpdate.AnalyzeRelationByte | friendupdate/relationanlysis.go:4-54 | the decoder returns `8·len + 2` entries; entry `k` for 1 ≤ k ≤ 4·len is peer k's field (byte `len-1-(k-1)/4`, offset `2·((k-1)%4)`); entry 0 and every entry past the peers are 0 |
| DatabaseTool.SetRelationBit | databasetool/handle.go:107-144 | fails exactly when the group is below 1, the value is outside 0..3 or the group is beyond 4·len, in that order of checks; otherwise it returns the input with only peer g's two bits replaced |
| DatabaseTool.WrittenDecodes | databasetool/handle.go:128-141 | after writing peer g, peer g reads back the value written and every other peer reads as before |
| DatabaseTool.DecodeAfterEncode | databasetool/handle.go:107-144 | the encode/decode round trip: a successful `SetRelationBit(v, g, s)` keeps the length, peer g decodes as s and every other peer decodes as in v |
| DatabaseTool.SetRelationBitTwice | databasetool/handle.go:137-141 | setting one group twice equals setting it once to the second value |
| DatabaseTool.SetRelationBitToCurrent | databasetool/handle.go:137-141 | setting a group to its current state returns an equal vector |
| DatabaseTool.InitialRelation | databasetool/handle.go:34 | a new account's vector is 8 bytes |
| DatabaseTool.InitialRelationIsEmpty | databasetool/handle.go:34-35 | every one of a new account's 32 peers decodes as "no relation" |
| DatabaseTool.BefriendedState | databasetool/handle.go:161-164 | the vector written back marks the peer as friend and keeps every other peer when the peer has a field; otherwise the dropped error leaves an empty vector |
| DatabaseTool.SortNewestFirst | databasetool/handle.go:190 | the query's `ORDER BY sendTime DESC` yields a newest-first permutation of its rows |
| DatabaseTool.Collect | databasetool/handle.go:189 | the `WHERE reciveid = ?` filter: exactly the queued rows for that receiver, each once |
| DatabaseTool.Store.FindUserByName | databasetool/handle.go:41-48 | the row with that name that comes first in primary-key order, as `db.First` picks among duplicate names; none exactly when no row has the name |
| DatabaseTool.Store.FindUserById | databasetool/handle.go:51-58 | the row whose primary key is id, none exactly when no row has it |
| DatabaseTool.Store.RegisterUser | databasetool/handle.go:32-38 | a successful insert appends one online row with the next id, the given name, password and IP, and the all-zero 8-byte vector; a failed one changes nothing |
| DatabaseTool.Store.MarkOnline | tcpnetwork/network.go:124-131 | a successful save sets status 1, the connection's IP and the leave time of that row only |
| DatabaseTool.Store.UserOffline | databasetool/handle.go:72-78 | a successful update sets status 0 and the leave time of that row only |
| DatabaseTool.Store.ChangePassword | databasetool/handle.go:88-92 | a successful update replaces that row's password only |
| DatabaseTool.Store.ChangeName | databasetool/handle.go:95-98 | a successful update replaces that row's name only |
| DatabaseTool.Store.UpdateRelation | databasetool/handle.go:180-183 | a successful update replaces that row's relation vector only |
| DatabaseTool.Store.BeFriend | databasetool/handle.go:147-177 | an unknown id fails and changes nothing; success writes each user's vector with the other marked friend, both read before either write; a failure with both ids present leaves the table unchanged or with only user1's vector written, as when the second update fails after the first |
| DatabaseTool.Store.CreateUnsendChat | databasetool/handle.go:202-211 | a successful insert adds exactly one row under a fresh logid carrying sender, receiver and content verbatim and the current time |
| DatabaseTool.Store.DeleteUnsendChat | databasetool/handle.go:196-199 | a successful delete removes exactly the row with that logid, and a missing row is no error |
| DatabaseTool.Store.GetUnsendChatsByReciveID | databasetool/handle.go:187-193 | every returned row is a queued row for that receiver, every queued row for it is returned, each exactly once, newest first |
| LoginCheck.Unexpired | logincheck/session.go:96-100 | the entries a sweep keeps: exactly those not expired at that time, with their sessions unchanged |
| LoginCheck.SessionManager.constructor | logincheck/session.go:34-38 | the table starts empty |
| LoginCheck.SessionManager.CreateSession | logincheck/session.go:43-57 | inserts or replaces the entry for the id, expiring 24 hours after creation, and returns the id unchanged |
| LoginCheck.SessionManager.ValidateSession | logincheck/session.go:62-80 | true exactly when the entry exists and the time is not after its expiry; an expired entry is removed; otherwise the table is unchanged |
| LoginCheck.SessionManager.RemoveSession | logincheck/session.go:84-88 | the table minus that id, whether or not it was present |
| LoginCheck.SessionManager.SweepExpired | logincheck/session.go:95-101 | one sweep removes exactly the entries expired at that time and keeps all others untouched |
| LoginCheck.RemoveIdempotent | logincheck/session.go:84-88 | removing a session twice equals removing it once |
| LoginCheck.SweptTableValidates | logincheck/session.go:96-100 | after a sweep at a time, every remaining entry validates at that time |
| LoginCheck.FreshSessionLifetime | logincheck/session.go:45-49 | a new session is valid up to and including creation time plus 24 hours |
| LoginCheck.Decide | logincheck/middleware.go:11-50 | "/login.html" and any path with prefix "/api/login" pass; any other path passes exactly when a non-empty cookie validates; a rejection clears the cookie and answers 401 with the JSON body `{"error":"请先登录"}` under "/api/", otherwise 303 to "/login.html" |
| LoginCheck.DecideWithoutValidation | logincheck/middleware.go:14-23 | when no validation happens, what the session table would answer does not matter |
| LoginCheck.Authorize | logincheck/middleware.go:14-48 | the table is consulted only for a non-exempt path with a non-empty cookie; the outcome is the decision on that validation; the validation removes the cookie's entry when it has expired and leaves the table unchanged otherwise |
| InitTool.To4 | inittool/localIp.go:31 | an IPv4 exists exactly for a 4-byte IP or an IPv4-mapped 16-byte IP, and it is the IP's last four bytes: the IP itself or bytes 12..15 |
| InitTool.Dotted | inittool/localIp.go:36 | the text of an address is at least seven characters: four numbers and three dots |
| InitTool.DottedInjective | inittool/localIp.go:36 | distinct IPv4 addresses print as distinct dotted-decimal texts, so the returned text names exactly one address |
| InitTool.FindInAddrs | inittool/localIp.go:29-41 | the inner loop returns only a wanted IPv4 address |
| InitTool.FindInInterfaces | inittool/localIp.go:19-43 | the outer loop returns only a wanted IPv4 address |
| InitTool.OwnCandidates | inittool/localIp.go:22-27 | an interface contributes only 4-byte addresses |
| InitTool.AddrCandidates | inittool/localIp.go:29-31 | the IPv4 addresses of a listing are 4 bytes each |
| InitTool.Candidates | inittool/localIp.go:19-31 | every candidate of the reference order is a 4-byte address |
| InitTool.FirstWanted | inittool/localIp.go:32-36 | the first wanted candidate, which is a 4-byte address |
| InitTool.FirstWantedIsFirst | inittool/localIp.go:19-43 | the first match is a wanted candidate with no wanted candidate before it, and there is none exactly when no candidate is wanted |
| InitTool.FindInAddrsIsFirst | inittool/localIp.go:29-41 | the inner loop finds the first wanted address of a listing |
| InitTool.FindInInterfacesIsFirst | inittool/localIp.go:19-64 | the nested search finds the first wanted address in interface-then-address order |
| InitTool.GetLocalIPChoice | inittool/localIp.go:11-68 | the first address in 192.168.73.0/24 if any; else the first address not in 127.0.0.0/8 and not 0.0.0.0; else "127.0.0.1" |
| InitTool.SkippedInterface | inittool/localIp.go:22-27 | an interface that is down, flagged loopback or whose listing fails contributes no candidate and does not stop the search |
| Strconv.Itoa | tcpnetwork/network.go:136 | `%d` of an id is a non-empty digit string without a leading zero |
| Strconv.FormatInt | tcpnetwork/network.go:723 | the decimal text of n parses back to n, and starts with a minus sign exactly when n is negative |
| Strconv.Atoi | tcpnetwork/network.go:602 | succeeds exactly on an optional sign followed by one or more digits and nothing else |
| Strconv.AtoiOfItoa | tcpnetwork/network.go:229-233 | parsing a session's decimal id gives the id back, so the `log.Fatal` branch is never taken |
| Strconv.ItoaInjective | tcpnetwork/network.go:145 | distinct account ids give distinct registry keys |
| Strconv.TrimPrefix | tcpnetwork/network.go:198 | a queue row's content is "file:" followed by the key, or is left as is |
| TcpMessages.IndexByte | tcpnetwork/network.go:89 | the index of the first `{`, or -1 when there is none |
| TcpMessages.ExtractFrame | tcpnetwork/network.go:334-352 | the bytes kept are empty without a `{`; otherwise they are the span from the first `{` up to the `}` that first brings the depth back to 0, or up to the end of the read |
| TcpMessages.FrameUnique | tcpnetwork/network.go:334-352 | a read has exactly one frame |
| TcpMessages.EmptyFrameIffNoBrace | tcpnetwork/network.go:334-357 | the "empty message" error occurs exactly when the read holds no `{` |
| TcpMessages.TrimSpace | tcpnetwork/network.go:354 | the trimmed frame has no white space at either end and is empty exactly when the frame is all white space |
| TcpMessages.TrimSpaceKeepsBrace | tcpnetwork/network.go:354-357 | a frame that starts with `{` never trims to nothing |
| TcpMessages.DecodeStrings | tcpnetwork/network.go:374 | decoding into string fields: a missing or null member gives "", a string fills the field, any other member type or top level fails |
| TcpMessages.MessageType | tcpnetwork/network.go:360-368 | the `type` member when the frame is an object with a string `type`; a decode error for a non-object top level; a missing-type error otherwise |
| TcpMessages.DecodeChat | tcpnetwork/network.go:373-376 | a chat message decodes exactly when its five fields do |
| TcpMessages.DecodeLogin | tcpnetwork/network.go:97-100 | a login request decodes exactly when its three fields do |
| TcpMessages.DecodeFileHeader | tcpnetwork/network.go:597-600 | a file header decodes exactly when its five fields do |
| TcpMessages.DecodeChangePassword | tcpnetwork/network.go:446-447 | a change-password request decodes exactly when its three fields do |
| TcpMessages.DecodeChangeName | tcpnetwork/network.go:553-554 | a change-name request decodes exactly when its two fields do |
| TcpMessages.Dispatch | tcpnetwork/network.go:371-409 | "message", "file_transfer", "changepwd" and "changename" each go to exactly their own handler, and every other type to none |
| TcpMessages.Read | tcpnetwork/network.go:640 | a read delivers at most a buffer's worth of the stream's bytes in order, and the rest stays for the next read; an error or the end delivers nothing |
| TcpNetwork.FriendIds | tcpnetwork/network.go:247-258 | every kept id is an account id |
| TcpNetwork.FriendIdsExactly | tcpnetwork/network.go:247-258 | the kept ids ascend, and an index is kept exactly when its status is the friend code and its account exists |
| TcpNetwork.FriendIdsIgnoreSlotZero | tcpnetwork/network.go:243-247 | overwriting entry 0 with the user's own id cannot change the list, since the loop starts at 1 |
| TcpNetwork.FriendEntries | tcpnetwork/network.go:260-265 | one entry per kept id |
| TcpNetwork.EntriesAt | tcpnetwork/network.go:260-265 | entry j carries id j's decimal id, name, friend code and online flag |
| TcpNetwork.FriendListIsFriends | tcpnetwork/network.go:242-267 | the friend list holds exactly the peers whose field is the friend code and that have an account, each once, in ascending id order, under its decimal id |
| TcpNetwork.ChunksCover | tcpnetwork/network.go:739-752 | a stored file's reads are non-empty, at most 1 MiB each, and together the whole file |
| TcpNetwork.PayloadOfChunks | tcpnetwork/network.go:749 | writing the chunks one per write puts their concatenation on the wire |
| TcpNetwork.ServedContent | tcpnetwork/network.go:738-752 | a stashed file is served byte for byte |
| TcpNetwork.PasswordCheck | tcpnetwork/network.go:429-493 | the password change may proceed exactly when the id parses, the request decodes, the account exists and the old password matches; the old-password failure is told apart exactly when all but the match hold |
| TcpNetwork.Renamed | tcpnetwork/network.go:569 | renaming changes the name of that account only, and an id without an account changes nothing |
| TcpNetwork.RelayedContent | tcpnetwork/network.go:639-652 | after the notice, the receiver's writes carry exactly the bytes read from the sender, a prefix of what the sender sent and at least the declared size |
| TcpNetwork.Routed | tcpnetwork/network.go:354-409 | an empty trimmed frame is the empty-message error; otherwise decode and type errors come first, an unknown type is its own error, and a known type routes to its handler |
| TcpNetwork.Engine.constructor | tcpnetwork/network.go:44-53 | no clients, no writes, no stashed files, no files |
| TcpNetwork.Engine.Now | tcpnetwork/network.go:667 | the clock never goes back |
| TcpNetwork.Engine.Write | tcpnetwork/network.go:161 | a successful write appends exactly that message for that connection; a failed one appends nothing |
| TcpNetwork.Engine.CreateFile | tcpnetwork/network.go:672-675 | a successful create makes an empty file at the path |
| TcpNetwork.Engine.AppendFile | tcpnetwork/network.go:689-692 | a successful write appends the bytes to that file only |
| TcpNetwork.Engine.RemoveFile | tcpnetwork/network.go:685 | the file is gone and every other file stays |
| TcpNetwork.Engine.OpenFile | tcpnetwork/network.go:732-735 | opening succeeds only for an existing file |
| TcpNetwork.Engine.ReadLoginRequest | tcpnetwork/network.go:80-105 | one read of up to 1024 bytes, cut at its first `{`, decoded, of type "login"; every failure writes nothing |
| TcpNetwork.Engine.Authenticate | tcpnetwork/network.go:107-149 | an unknown name or a wrong password answers failure and registers nothing; success marks the account online and registers the connection under the decimal id, replacing any earlier entry, and answers "id:" + id |
| TcpNetwork.Engine.CollectFriends | tcpnetwork/network.go:247-267 | the loop builds exactly the entries of the friend ids, in order |
| TcpNetwork.Engine.SetupFriendList | tcpnetwork/network.go:227-284 | a user without a row fails and writes nothing; otherwise the friend list of the decoded vector is written, or the write fails |
| TcpNetwork.Engine.ReplayOffline | tcpnetwork/network.go:189-220 | the rows are processed one by one in the given order, each moving the state by one row's replay whatever happened to earlier rows (the returned trace); only text rows whose message was written are deleted, file rows are never deleted, no other row changes, and the log only grows |
| TcpNetwork.Engine.ReplayRow | tcpnetwork/network.go:190-217 | one row: a file row hands the text after "file:" to `checkPendingFiles` as the key and leaves the queue alone; a text row's message is written to the client and the row then deleted; a failed write changes nothing and a failed delete keeps the row |
| TcpNetwork.Engine.RowReplayEffect | tcpnetwork/network.go:196-217 | one row's replay only appends to the log, changes no row, and deletes a row only if it is this text row and its message is in the log |
| TcpNetwork.TextRowStepEffect | tcpnetwork/network.go:203-216 | a text row's step appends at most its own message and deletes at most its own row |
| TcpNetwork.Engine.ReplayTraceEffect | tcpnetwork/network.go:189-220 | over the whole replay, the log only grows, no row is changed, a row is gone only if it is a text row whose message reached the client, and no file row is deleted |
| TcpNetwork.Engine.SendFileData | tcpnetwork/network.go:738-752 | without error, the file's 1 MiB chunks are written in order to the client |
| TcpNetwork.Engine.CheckPendingFiles | tcpnetwork/network.go:713-764 | only the entry with that key and this client as receiver is served: the notice, then the whole file; the file and entry are removed only after the last write; on any failure both stay; any other key changes nothing |
| TcpNetwork.Engine.HandleChat | tcpnetwork/network.go:372-399 | the sender is overwritten with the session's id; a registered receiver gets the message and nothing is queued; otherwise the message is queued for the receiver with the session's id and nothing is written |
| TcpNetwork.Engine.HandleChangePassword | tcpnetwork/network.go:415-523 | every outcome writes at most one answer; the password changes only when all checks pass and the update succeeds; a wrong old password is answered with its own message |
| TcpNetwork.Engine.HandleChangeName | tcpnetwork/network.go:525-593 | an unparsable id or request answers "fail" and changes nothing; otherwise the name is stored for that id and "success" answered, or "fail" on a failed update |
| TcpNetwork.Engine.RelayChunks | tcpnetwork/network.go:636-652 | each read is written to the receiver as it is; without error the reads reach the declared size, stopping at the first that does |
| TcpNetwork.Engine.ForwardFile | tcpnetwork/network.go:622-656 | the `file_notify` carrying the header's name, size text and sender comes first; nothing is relayed when it cannot be written |
| TcpNetwork.Engine.CopyToFile | tcpnetwork/network.go:679-695 | without error the file holds exactly the bytes read, at least the declared size; on a read or write error the file is removed |
| TcpNetwork.Engine.StorePendingFile | tcpnetwork/network.go:659-711 | the key is sender_receiver_nanos_filename; on any error no entry and no queue row is made; on success the file holds the bytes read, the entry is stored under the key and a "file:" + key row is queued for the receiver unless queuing fails |
| TcpNetwork.Engine.RegisterStoredFile | tcpnetwork/network.go:697-710 | the entry records name, path, size, bytes received, sender and receiver; then the "file:" row is queued or nothing |
| TcpNetwork.Engine.HandleFileTransfer | tcpnetwork/network.go:596-619 | a bad header or size changes nothing; a registered receiver gets the relay and nothing is stored; otherwise the file is stored and nothing is written |
| TcpNetwork.Engine.HandleMessage | tcpnetwork/network.go:330-412 | the frame is the first balanced span; every failure before the handler changes nothing and reads nothing further; otherwise exactly the routed handler runs |
| TcpNetwork.Engine.RunHandler | tcpnetwork/network.go:371-409 | only a file transfer reads further or touches files; only chat and file transfer queue rows; only the account handlers change accounts |
| TcpNetwork.Engine.Cleanup | tcpnetwork/network.go:305-317 | the account is marked offline if the update succeeds, and the registry entry under the session's id is deleted whatever connection it names |
| TcpNetwork.Engine.MessageLoop | tcpnetwork/network.go:287-302 | reads until one fails, each handled whatever the handler returns; the session's registry entry is then gone |
| TcpNetwork.Engine.HandleConnection | tcpnetwork/network.go:165-224 | a failed login leaves the registry unchanged; any later stage required a valid login request with a matching password; a session that ends in the loop has its entry removed; one that fails after login keeps it |
| TcpNetwork.Engine.RunSession | tcpnetwork/network.go:176-223 | a failure before the loop returns with the registry unchanged; reaching the loop ends with the entry removed |

## Left out

- Socket I/O is abstract. A read is the next delivery of a given sequence. A write is an append to a log and may fail. Deadlines and `Close` are not modelled.
- `InitTool.GetLocalIPChoice`: each interface has one address listing, read by both passes. The source calls `iface.Addrs()` again in each pass (inittool/localIp.go:23 and 48), so the two listings could differ, and either call could fail on its own.
- Locks and goroutines are not modelled: the registry lock, the file lock, the session `RWMutex`, the per-connection worker and the hourly sweeper goroutine. The model is sequential. The sweeper is one pass, `SweepExpired`.
- JSON encoding and decoding are abstract.
  - Decoding is a function from bytes to a `Json` value.
  - The records are read from that value by exact member name. Go's case-insensitive field matching is not modelled.
  - Responses are records, not their serialised bytes. A serialisation failure cannot happen for these records.
- `strings.TrimSpace` strips ASCII white space only, not the Unicode white-space set.
- `Strconv.Atoi`: does not model the 64-bit range limit of `strconv.Atoi` and `ParseInt`, because ids and sizes are unbounded integers here. `int64` overflow of the `received` counter is not modelled either.
- `Authenticate`: the only database error modelled is "no such row". The "数据库错误" answer for other lookup errors is not modelled.
- `Engine.SetupFriendList`: the own-row lookup fails only when there is no such row. In the source any other lookup error also ends the session before the list is sent (tcpnetwork/network.go:235-238).
- `Engine.CollectFriends`: every friend with a row is listed. In the source a friend whose lookup fails with any other database error is silently left out of the list (tcpnetwork/network.go:251-257).
- `Engine.HandleChangePassword`: the account lookup fails only when there is no such row. In the source any other lookup error for an existing account is also answered "修改密码失败，服务器繁忙" (tcpnetwork/network.go:463-477).
- `Store.BeFriend`: a nil vector, written when the peer id is beyond the vector's fields, goes to MySQL as NULL into the `bit(64) not null` column (databasetool/usertable.go:13). In strict SQL mode that update fails; otherwise MySQL stores the column's implicit default, all zero bits. The model allows the update to fail, or to succeed and store the empty vector; it does not model the zero default.
- `RunSession`: a failure of the queue query is a nondeterministic outcome.
- `SendFileData`: assumes each read of the stored file returns a full 1 MiB buffer, or the remainder of the file. It does not model short reads, and on error it states only that the log grew.
- `Engine.RemoveFile`: `os.Remove` always succeeds in the model.
- `FileStoragePath + key` stands for `filepath.Join`. Path cleaning is not modelled.
- `Store.constructor` stands for the empty tables of a fresh database, with logids starting at 1.
- `SessionManager.CreateSession`: reads the clock once. The source reads `time.Now()` twice (logincheck/session.go:47-48), so there the expiry is at least, not exactly, 24 hours after the recorded creation time.
- `SessionManager.SweepExpired`: uses one instant for the whole sweep. The source reads the clock again for each entry (logincheck/session.go:97), so later entries can be tested against a later time.
- `Store.FindUserByName`: compares names by exact equality, and `Store.GetUnsendChatsByReciveID` compares `reciveid` the same way. MySQL's default `utf8mb4` collations compare case- and accent-insensitively, and the older PAD SPACE collations also ignore trailing spaces (the DSN at databasetool/handle.go:11 sets no collation). So the source's `Name = ?` can also match a name differing only in letter case, accents or trailing spaces.
- `InitDB` and the database open/close in `cleanupClient` are not modelled. The connection-pool settings are not modelled either.
- The `LastActive` and `ConnectTime` timestamps are not modelled.
- `log.Fatal` exits are not modelled. The one in `setupFriendList` is unreachable (`AtoiOfItoa`).
- The floating-point progress log line is not modelled.
- `DeleteUser` is not modelled. No caller reaches it from the modelled code.
- The HTTP admin handlers, the router and `main` are not modelled.
- `Engine.ReplayOffline`: for a file row whose serving fails, the log is stated only to start with the notice, as `CheckPendingFiles` states it.
- `Engine.HandleMessage`: states the framing, the routing and what each route leaves alone. What a handler does is stated by that handler's own contract.
- `Engine.HandleFileTransfer`: states which path runs and what it leaves alone, plus the first write of a relay. The bytes relayed and stored are stated by `ForwardFile`, `RelayedContent` and `StorePendingFile`.
- `Engine.MessageLoop`: states only the registry outcome. Each message's effect is stated by `HandleMessage`.
- `Engine.RunSession` and `Engine.HandleConnection`: state only the login facts and the registry outcome. They do not state that the friend list is written before the replay, or what is written and queued. Those effects are stated by `SetupFriendList`, `ReplayOffline` (with `ReplayTraceEffect`) and `MessageLoop`.
- Bytes after the frame in a 4096-byte read are dropped, as in the source. File data that arrives in the same read as its header is also lost. The copy loops read only from the following deliveries.
