/**
 * The persistence operations of package databasetool, over abstract tables:
 * the `User` table (rows ordered by their auto-increment id) and the
 * `Unsendchat` offline queue (rows keyed by their auto-increment `logid`).
 * Also the relation-vector encoder `SetRelationBit`.
 */
module DatabaseTool {
  import opened Wrappers
  import opened RelationBits

  /** The relation column is `bit(64)`: eight bytes, so 32 peer slots. */
  const RelationBytes := 8

  /** A row of the `User` table. Times are integer clock readings. */
  datatype User = User(
    id: nat, name: string, password: string, ip: string, relation: seq<bv8>,
    registerTime: int, leaveTime: int, status: int)

  /** A row of the `Unsendchat` offline queue. */
  datatype Unsendchat = Unsendchat(
    logid: nat, sendid: string, reciveid: string, content: string, sendTime: int)

  datatype RelationError = GroupBelowOne | ValueOutOfRange | GroupBeyondCapacity | ByteIndexOutOfRange

  /** `v` with peer `g`'s field replaced by `value` and every other bit kept. */
  function Written(v: seq<bv8>, g: int, value: int): (w: seq<bv8>)
    requires 1 <= g <= 4 * |v| && 0 <= value <= 3
    ensures |w| == |v|
  {
    FieldShiftIsOffset(g);
    v[FieldByte(|v|, g) := Write(v[FieldByte(|v|, g)], FieldShift(g) as bv4, value as bv8)]
  }

  /**
   * `SetRelationBit`: a copy of `data` with peer `groupNum`'s field set to `value`.
   * Fails, and yields no vector, when the group is below 1, the value is outside
   * 0..3 or the group lies beyond the vector's 4 * |data| fields; the source's
   * fourth check (byte index out of range) can then never fire.
   */
  function SetRelationBit(data: seq<bv8>, groupNum: int, value: int): (r: Result<seq<bv8>, RelationError>)
    ensures r.Failure? <==> groupNum < 1 || value < 0 || value > 3 || groupNum > 4 * |data|
    ensures groupNum < 1 ==> r == Failure(GroupBelowOne)
    ensures groupNum >= 1 && (value < 0 || value > 3) ==> r == Failure(ValueOutOfRange)
    ensures groupNum >= 1 && 0 <= value <= 3 && groupNum > 4 * |data| ==> r == Failure(GroupBeyondCapacity)
    ensures r.Success? ==> r.value == Written(data, groupNum, value)
  {
    var result := data;
    if groupNum < 1 then Failure(GroupBelowOne)
    else if value < 0 || value > 3 then Failure(ValueOutOfRange)
    else
      var totalGroups := |result| * 4;
      if groupNum > totalGroups then Failure(GroupBeyondCapacity)
      else
        var byteIndex := |result| - 1 - (groupNum - 1) / 4;
        if byteIndex < 0 || byteIndex >= |result| then Failure(ByteIndexOutOfRange)
        else
          var bitPos := ((groupNum - 1) % 4) * 2;
          var mask := !((3 as bv8) << bitPos);
          var cleared := result[byteIndex] & mask;
          Success(result[byteIndex := cleared | ((value as bv8) << bitPos)])
  }

  /** After writing peer `g`, peer `k` decodes as the value written when k == g, and as before otherwise. */
  lemma WrittenDecodes(v: seq<bv8>, g: int, value: int, k: int)
    requires 1 <= g <= 4 * |v| && 0 <= value <= 3 && 1 <= k <= 4 * |v|
    ensures PeerState(Written(v, g, value), k) == if k == g then value else PeerState(v, k)
  {
    var b := FieldByte(|v|, g);
    FieldShiftIsOffset(g);
    FieldShiftIsOffset(k);
    if FieldByte(|v|, k) == b {
      if k != g {
        SameByteOtherOffset(k, g);
      }
      WriteRead(v[b], FieldShift(g) as bv4, value as bv8, FieldShift(k) as bv4);
    }
  }

  /**
   * The round trip between encoder and decoder: after `SetRelationBit(v, g, s)`
   * succeeds, peer `g` decodes as `s` and every other peer decodes as before.
   */
  lemma DecodeAfterEncode(v: seq<bv8>, g: int, s: int)
    requires SetRelationBit(v, g, s).Success?
    ensures var w := SetRelationBit(v, g, s).value;
      && |w| == |v|
      && PeerState(w, g) == s
      && forall k :: 1 <= k <= 4 * |v| && k != g ==> PeerState(w, k) == PeerState(v, k)
  {
    WrittenDecodes(v, g, s, g);
    forall k | 1 <= k <= 4 * |v| && k != g
      ensures PeerState(Written(v, g, s), k) == PeerState(v, k)
    {
      WrittenDecodes(v, g, s, k);
    }
  }

  /** Writing one field twice keeps only the second value. */
  lemma SetRelationBitTwice(v: seq<bv8>, g: int, a: int, b: int)
    requires SetRelationBit(v, g, a).Success?
    ensures SetRelationBit(SetRelationBit(v, g, a).value, g, b) == SetRelationBit(v, g, b)
  {
    if 0 <= b <= 3 {
      var i := FieldByte(|v|, g);
      FieldShiftIsOffset(g);
      WriteWrite(v[i], FieldShift(g) as bv4, a as bv8, b as bv8);
      assert Written(Written(v, g, a), g, b) == Written(v, g, b);
    }
  }

  /** Writing a field's current value gives back an equal vector. */
  lemma SetRelationBitToCurrent(v: seq<bv8>, g: int)
    requires 1 <= g <= 4 * |v|
    ensures SetRelationBit(v, g, PeerState(v, g)) == Success(v)
  {
    var i := FieldByte(|v|, g);
    FieldShiftIsOffset(g);
    FieldRoundTrip(v[i], FieldShift(g) as bv4);
    WriteCurrent(v[i], FieldShift(g) as bv4);
    assert v[i := v[i]] == v;
  }

  /** The vector every new account starts with: eight zero bytes. */
  function InitialRelation(): (v: seq<bv8>)
    ensures |v| == RelationBytes
  {
    seq(RelationBytes, _ => 0)
  }

  /** A new account is in no relationship with any of its 32 peers. */
  lemma InitialRelationIsEmpty(k: int)
    requires 1 <= k <= 4 * RelationBytes
    ensures PeerState(InitialRelation(), k) == NoRelation
  {
  }

  /** The vector `BeFriend` writes back for one side: its error is dropped, leaving nil. */
  function Befriended(relation: seq<bv8>, peer: int): (r: seq<bv8>)
  {
    match SetRelationBit(relation, peer, Friend)
    case Success(v) => v
    case Failure(_) => []
  }

  /**
   * `Befriended` marks `peer` as a friend and keeps every other peer when `peer`
   * has a field in the vector; otherwise the dropped error leaves a nil vector,
   * which `BeFriend` then sends to the database as it is.
   */
  lemma BefriendedState(relation: seq<bv8>, peer: int)
    ensures 1 <= peer <= 4 * |relation| ==>
      && |Befriended(relation, peer)| == |relation|
      && PeerState(Befriended(relation, peer), peer) == Friend
      && forall k :: 1 <= k <= 4 * |relation| && k != peer ==>
           PeerState(Befriended(relation, peer), k) == PeerState(relation, k)
    ensures !(1 <= peer <= 4 * |relation|) ==> Befriended(relation, peer) == []
  {
    if 1 <= peer <= 4 * |relation| {
      DecodeAfterEncode(relation, peer, Friend);
    }
  }

  /** The index of the first row named `name`, or `|us|` when there is none. */
  function IndexOfName(us: seq<User>, name: string): (i: nat)
    ensures i <= |us|
    ensures i < |us| ==> us[i].name == name
    ensures forall j :: 0 <= j < i ==> us[j].name != name
  {
    if us == [] then 0
    else if us[0].name == name then 0
    else 1 + IndexOfName(us[1..], name)
  }

  /**
   * The rows of the queue addressed to `rid` whose logid lies in `lower .. upper - 1`,
   * in logid order.
   */
  function Collect(chats: map<nat, Unsendchat>, rid: string, lower: nat, upper: nat): (r: seq<Unsendchat>)
    requires forall id :: id in chats ==> chats[id].logid == id
    ensures forall c :: c in r ==>
      lower <= c.logid < upper && c.logid in chats && chats[c.logid] == c && c.reciveid == rid
    ensures forall id :: lower <= id < upper && id in chats && chats[id].reciveid == rid ==> chats[id] in r
    ensures forall i, j :: 0 <= i < j < |r| ==> r[i].logid < r[j].logid
    decreases upper - lower
  {
    if lower >= upper then []
    else
      var rest := Collect(chats, rid, lower + 1, upper);
      if lower in chats && chats[lower].reciveid == rid then [chats[lower]] + rest else rest
  }

  predicate NewestFirst(s: seq<Unsendchat>)
  {
    forall i, j :: 0 <= i < j < |s| ==> s[i].sendTime >= s[j].sendTime
  }

  /** Prepending a row at least as new as the head keeps a sequence newest-first. */
  lemma PrependNewest(c: Unsendchat, s: seq<Unsendchat>)
    requires NewestFirst(s)
    requires s != [] ==> c.sendTime >= s[0].sendTime
    ensures NewestFirst([c] + s)
  {
    if s != [] {
      assert forall j :: 0 <= j < |s| ==> s[0].sendTime >= s[j].sendTime;
    }
  }

  /** Inserts `c` into a newest-first sequence, after every row at least as new. */
  function InsertNewestFirst(c: Unsendchat, s: seq<Unsendchat>): (r: seq<Unsendchat>)
    requires NewestFirst(s)
    ensures NewestFirst(r) && multiset(r) == multiset(s) + multiset{c}
    ensures |r| == |s| + 1 && (r[0] == c || (s != [] && r[0] == s[0]))
  {
    if s == [] || s[0].sendTime < c.sendTime then
      PrependNewest(c, s);
      [c] + s
    else
      var rest := InsertNewestFirst(c, s[1..]);
      assert s == [s[0]] + s[1..];
      PrependNewest(s[0], rest);
      [s[0]] + rest
  }

  /** Orders rows by send time, newest first: the query's `ORDER BY sendTime DESC`. */
  function SortNewestFirst(s: seq<Unsendchat>): (r: seq<Unsendchat>)
    ensures NewestFirst(r) && multiset(r) == multiset(s)
  {
    if s == [] then []
    else
      assert s == [s[0]] + s[1..];
      InsertNewestFirst(s[0], SortNewestFirst(s[1..]))
  }

  /** The tables the server persists. */
  class Store {
    var users: seq<User>
    var chats: map<nat, Unsendchat>
    var nextLogId: nat

    /** Ids are auto-increment: row i has id i + 1; logids key their rows and run below `nextLogId`. */
    ghost predicate Valid()
      reads this
    {
      && (forall i :: 0 <= i < |users| ==> users[i].id == i + 1)
      && (forall id :: id in chats ==> chats[id].logid == id && id < nextLogId)
    }

    constructor ()
      ensures Valid() && users == [] && chats == map[] && nextLogId == 1
    {
      users, chats, nextLogId := [], map[], 1;
    }

    /** `FindUserByName`: the row with that name and the smallest id, or none. */
    function FindUserByName(name: string): (r: Option<User>)
      reads this
      ensures r.Some? ==> r.value in users && r.value.name == name
      ensures r.Some? ==>
        exists i :: 0 <= i < |users| && users[i] == r.value && forall j :: 0 <= j < i ==> users[j].name != name
      ensures r.None? <==> forall i :: 0 <= i < |users| ==> users[i].name != name
    {
      var i := IndexOfName(users, name);
      if i < |users| then Some(users[i]) else None
    }

    /** `FindUserById`: the row with primary key `id`, or none. */
    function FindUserById(id: int): (r: Option<User>)
      requires Valid()
      reads this
      ensures r.Some? ==> 1 <= id <= |users| && r.value == users[id - 1] && r.value.id == id
      ensures r.None? <==> forall i :: 0 <= i < |users| ==> users[i].id != id
    {
      if 1 <= id <= |users| then Some(users[id - 1]) else None
    }

    /** `RegisterUser`: a new row, online, with an all-zero 8-byte relation vector. */
    method RegisterUser(name: string, password: string, ip: string, now: int) returns (ok: bool)
      requires Valid()
      modifies this
      ensures Valid() && chats == old(chats) && nextLogId == old(nextLogId)
      ensures ok ==> users == old(users) + [User(|old(users)| + 1, name, password, ip, InitialRelation(), now, 0, 1)]
      ensures !ok ==> users == old(users)
    {
      ok :| true;
      if ok {
        users := users + [User(|users| + 1, name, password, ip, InitialRelation(), now, 0, 1)];
      }
    }

    /** The `db.Save` of a successful login: online, with the connection's IP, LeaveTime set to now. */
    method MarkOnline(id: int, ip: string, now: int) returns (ok: bool)
      requires Valid()
      modifies this`users
      ensures Valid()
      ensures ok && 1 <= id <= |old(users)| ==>
        users == old(users)[id - 1 := old(users)[id - 1].(status := 1, ip := ip, leaveTime := now)]
      ensures !ok || !(1 <= id <= |old(users)|) ==> users == old(users)
    {
      ok :| true;
      if ok && 1 <= id <= |users| {
        users := users[id - 1 := users[id - 1].(status := 1, ip := ip, leaveTime := now)];
      }
    }

    /** `UserOffline`: Status 0 and LeaveTime now for the row with that id, if any. */
    method UserOffline(id: int, now: int) returns (ok: bool)
      requires Valid()
      modifies this`users
      ensures Valid()
      ensures ok && 1 <= id <= |old(users)| ==>
        users == old(users)[id - 1 := old(users)[id - 1].(status := 0, leaveTime := now)]
      ensures !ok || !(1 <= id <= |old(users)|) ==> users == old(users)
    {
      ok :| true;
      if ok && 1 <= id <= |users| {
        users := users[id - 1 := users[id - 1].(status := 0, leaveTime := now)];
      }
    }

    /** `ChangePassword`. */
    method ChangePassword(id: int, password: string) returns (ok: bool)
      requires Valid()
      modifies this`users
      ensures Valid()
      ensures ok && 1 <= id <= |old(users)| ==>
        users == old(users)[id - 1 := old(users)[id - 1].(password := password)]
      ensures !ok || !(1 <= id <= |old(users)|) ==> users == old(users)
    {
      ok :| true;
      if ok && 1 <= id <= |users| {
        users := users[id - 1 := users[id - 1].(password := password)];
      }
    }

    /** `ChangeName`. */
    method ChangeName(id: int, name: string) returns (ok: bool)
      requires Valid()
      modifies this`users
      ensures Valid()
      ensures ok && 1 <= id <= |old(users)| ==>
        users == old(users)[id - 1 := old(users)[id - 1].(name := name)]
      ensures !ok || !(1 <= id <= |old(users)|) ==> users == old(users)
    {
      ok :| true;
      if ok && 1 <= id <= |users| {
        users := users[id - 1 := users[id - 1].(name := name)];
      }
    }

    /** `UpdateRelation`. */
    method UpdateRelation(id: int, relation: seq<bv8>) returns (ok: bool)
      requires Valid()
      modifies this`users
      ensures Valid()
      ensures ok && 1 <= id <= |old(users)| ==>
        users == old(users)[id - 1 := old(users)[id - 1].(relation := relation)]
      ensures !ok || !(1 <= id <= |old(users)|) ==> users == old(users)
    {
      ok :| true;
      if ok && 1 <= id <= |users| {
        users := users[id - 1 := users[id - 1].(relation := relation)];
      }
    }

    /**
     * `BeFriend`: marks each of the two users as the other's friend. Both rows are
     * read before either is written; the encoder's error is dropped, so a peer id
     * beyond a vector's 32 fields sends a nil vector to the update. The two updates are
     * not one transaction: when the second fails, the first one's row stays written.
     */
    method BeFriend(id1: int, id2: int) returns (ok: bool)
      requires Valid()
      modifies this`users
      ensures Valid()
      ensures FindUserById(id1).None? || FindUserById(id2).None? ==> !ok && users == old(users)
      ensures ok ==>
        && 1 <= id1 <= |old(users)| && 1 <= id2 <= |old(users)|
        && users == old(users)
             [id1 - 1 := old(users)[id1 - 1].(relation := Befriended(old(users)[id1 - 1].relation, id2))]
             [id2 - 1 := old(users)[id2 - 1].(relation := Befriended(old(users)[id2 - 1].relation, id1))]
      ensures (!ok && 1 <= id1 <= |old(users)| && 1 <= id2 <= |old(users)|) ==>
        || users == old(users)
        || users == old(users)[id1 - 1 := old(users)[id1 - 1].(relation := Befriended(old(users)[id1 - 1].relation, id2))]
    {
      var user1 := FindUserById(id1);
      if user1.None? {
        return false;
      }
      var user2 := FindUserById(id2);
      if user2.None? {
        return false;
      }
      var relation1 := Befriended(user1.value.relation, id2);
      var relation2 := Befriended(user2.value.relation, id1);
      ok := UpdateRelation(id1, relation1);
      if !ok {
        return;
      }
      ok := UpdateRelation(id2, relation2);
    }

    /** `CreateUnsendChat`: queues sender, receiver and content verbatim under a fresh logid. */
    method CreateUnsendChat(sendid: string, reciveid: string, content: string, now: int) returns (ok: bool)
      requires Valid()
      modifies this`chats, this`nextLogId
      ensures Valid() && nextLogId >= old(nextLogId)
      ensures old(nextLogId) !in old(chats)
      ensures ok ==> chats == old(chats)[old(nextLogId) := Unsendchat(old(nextLogId), sendid, reciveid, content, now)]
      ensures !ok ==> chats == old(chats)
    {
      ok :| true;
      if ok {
        chats := chats[nextLogId := Unsendchat(nextLogId, sendid, reciveid, content, now)];
        nextLogId := nextLogId + 1;
      }
    }

    /** `DeleteUnsendChat`: removes exactly the row with that logid (none is no error). */
    method DeleteUnsendChat(logid: nat) returns (ok: bool)
      requires Valid()
      modifies this`chats
      ensures Valid()
      ensures ok ==> chats == old(chats) - {logid}
      ensures !ok ==> chats == old(chats)
    {
      ok :| true;
      if ok {
        chats := chats - {logid};
      }
    }

    /**
     * `GetUnsendChatsByReciveID`: every queued row addressed to `reciveid`, each
     * exactly once, newest first.
     */
    function GetUnsendChatsByReciveID(reciveid: string): (r: seq<Unsendchat>)
      requires Valid()
      reads this
      ensures NewestFirst(r)
      ensures forall c :: c in r ==> c.reciveid == reciveid && c.logid in chats && chats[c.logid] == c
      ensures forall id :: id in chats && chats[id].reciveid == reciveid ==> chats[id] in r
      ensures multiset(r) == multiset(Collect(chats, reciveid, 0, nextLogId))
    {
      var matching := Collect(chats, reciveid, 0, nextLogId);
      var r := SortNewestFirst(matching);
      assert forall c :: c in r <==> c in matching by {
        forall c ensures c in r <==> c in matching {
          assert c in r <==> c in multiset(r);
          assert c in matching <==> c in multiset(matching);
        }
      }
      r
    }
  }
}
