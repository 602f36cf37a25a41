/**
 * The profile table and the chat-history table behind `get_user_profile`,
 * `save_user_profile`, `save_chat_message` and `get_chat_history`, as an
 * immutable store value: a map keyed by user id and an append-only log.
 */
module Memory {
  import opened Wrappers
  import opened Profiles

  /** One row of the chat-history table. Log position stands for the timestamp order. */
  datatype Entry = Entry(userId: string, role: string, content: string)

  /**
   * `profiles`: the profile table; `names`: the `name` column of the users
   * table (read only, for the greeting); `log`: every history row, oldest
   * first; `pendingColumn`: whether profile records carry `pending_action`.
   */
  datatype Store = Store(
    profiles: map<string, Profile>,
    names: map<string, Option<string>>,
    log: seq<Entry>,
    pendingColumn: bool)

  /** Every stored profile is valid and has the attribute set of the table. */
  predicate ValidStore(st: Store) {
    forall u :: u in st.profiles ==> Valid(st.profiles[u]) && st.profiles[u].hasPendingAttr == st.pendingColumn
  }

  /** `get_user_profile(user_id)`: the row, or `None`. */
  function GetUserProfile(st: Store, uid: string): Option<Profile> {
    if uid in st.profiles then Some(st.profiles[uid]) else None
  }

  /** The record `save_user_profile` writes into: the existing row, or a fresh all-NULL one. */
  function RowFor(st: Store, uid: string): Profile {
    GetUserProfile(st, uid).GetOr(EmptyProfile(st.pendingColumn))
  }

  /**
   * `save_user_profile(user_id, field, value)`: the row exists afterwards; a
   * `None` value changes no column; any other value is stored in the named
   * column; every other column, every other user and the history are unchanged.
   */
  function SaveUserProfile(st: Store, uid: string, w: FieldWrite): (r: Store)
    ensures ValidStore(st) ==> ValidStore(r)
    ensures r.log == st.log && r.names == st.names && r.pendingColumn == st.pendingColumn
    ensures uid in r.profiles
    ensures forall u :: u != uid ==> GetUserProfile(r, u) == GetUserProfile(st, u)
    ensures Payload(w) == None ==> r.profiles[uid] == RowFor(st, uid)
    ensures Payload(w) != None && Persisted(RowFor(st, uid), Target(w)) ==> Get(r.profiles[uid], Target(w)) == Payload(w)
    ensures forall f :: f != Target(w) ==> Get(r.profiles[uid], f) == Get(RowFor(st, uid), f)
    ensures uid !in st.profiles ==> forall f :: f != Target(w) ==> Get(r.profiles[uid], f) == None
  {
    st.(profiles := st.profiles[uid := Assign(RowFor(st, uid), w)])
  }

  /**
   * `save_chat_message(user_id, role, content)`: an incomplete message (empty
   * user id, role or content) is dropped; otherwise one row is appended.
   */
  function SaveChatMessage(st: Store, uid: string, role: string, content: string): (r: Store)
    ensures r.profiles == st.profiles && r.names == st.names && r.pendingColumn == st.pendingColumn
    ensures uid == "" || role == "" || content == "" ==> r.log == st.log
    ensures uid != "" && role != "" && content != "" ==> |r.log| == |st.log| + 1 && r.log[|st.log|] == Entry(uid, role, content)
    ensures st.log <= r.log
  {
    if uid == "" || role == "" || content == "" then st
    else st.(log := st.log + [Entry(uid, role, content)])
  }

  /** The history rows of one user, in log (timestamp) order. */
  function UserLog(log: seq<Entry>, uid: string): (h: seq<Entry>)
    ensures |h| <= |log|
    ensures forall k :: 0 <= k < |h| ==> h[k].userId == uid
  {
    if |log| == 0 then [] else (if log[0].userId == uid then [log[0]] else []) + UserLog(log[1..], uid)
  }

  /** A user's history holds rows of the log, and every row of that user is in it. */
  lemma {:induction false} UserLogRows(log: seq<Entry>, uid: string)
    ensures forall e :: e in UserLog(log, uid) <==> e in log && e.userId == uid
  {
    if |log| > 0 {
      UserLogRows(log[1..], uid);
      assert log == [log[0]] + log[1..];
    }
  }

  lemma {:induction false} UserLogConcat(a: seq<Entry>, b: seq<Entry>, uid: string)
    ensures UserLog(a + b, uid) == UserLog(a, uid) + UserLog(b, uid)
  {
    if |a| == 0 {
      assert a + b == b;
    } else {
      assert (a + b)[1..] == a[1..] + b;
      UserLogConcat(a[1..], b, uid);
    }
  }

  /**
   * Appending a message changes the history of its own user only, by exactly
   * that message at the end; every other user's history is untouched.
   */
  lemma SaveChatMessageIsolation(st: Store, uid: string, role: string, content: string, u: string)
    ensures u != uid ==> UserLog(SaveChatMessage(st, uid, role, content).log, u) == UserLog(st.log, u)
    ensures uid != "" && role != "" && content != "" ==>
              UserLog(SaveChatMessage(st, uid, role, content).log, uid) == UserLog(st.log, uid) + [Entry(uid, role, content)]
  {
    var e := Entry(uid, role, content);
    UserLogConcat(st.log, [e], u);
    assert UserLog([e], u) == (if uid == u then [e] else []) + UserLog([], u);
    if !(uid == "" || role == "" || content == "") {
      UserLogConcat(st.log, [e], uid);
    }
  }

  function Min(a: nat, b: nat): nat {
    if a <= b then a else b
  }

  /** `get_chat_history(user_id, limit)`: the most recent `limit` rows of the user, oldest first. */
  function GetChatHistory(st: Store, uid: string, limit: nat): (r: seq<Entry>)
    ensures uid == "" ==> r == []
    ensures |r| <= limit
    ensures forall k :: 0 <= k < |r| ==> r[k].userId == uid
    ensures uid != "" ==> |r| == Min(limit, |UserLog(st.log, uid)|)
    ensures uid != "" ==> r == UserLog(st.log, uid)[|UserLog(st.log, uid)| - |r|..]
  {
    if uid == "" then []
    else
      var h := UserLog(st.log, uid);
      h[|h| - Min(limit, |h|)..]
  }

  function Reverse<T>(s: seq<T>): (r: seq<T>)
    ensures |r| == |s|
    ensures forall k :: 0 <= k < |s| ==> r[k] == s[|s| - 1 - k]
  {
    seq(|s|, k requires 0 <= k < |s| => s[|s| - 1 - k])
  }

  /** Reading the newest `limit` rows and reversing them is the same as keeping the last `limit` rows. */
  lemma ReverseTakeReverse<T>(s: seq<T>, limit: nat)
    ensures Reverse(Reverse(s)[..Min(limit, |s|)]) == s[|s| - Min(limit, |s|)..]
  {
  }

  /** The newest `limit` rows of the user, newest first: what the descending query with a limit reads. */
  function NewestFirst(log: seq<Entry>, uid: string, limit: nat): seq<Entry> {
    Reverse(UserLog(log, uid))[..Min(limit, |UserLog(log, uid)|)]
  }

  /** Cutting a sequence extended by one element at a limit. */
  lemma TakeSnoc<T>(r: seq<T>, e: T, limit: nat)
    ensures (r + [e])[..Min(limit, |r| + 1)] ==
            (if |r[..Min(limit, |r|)]| < limit then r[..Min(limit, |r|)] + [e] else r[..Min(limit, |r|)])
  {
  }

  lemma ReverseCons<T>(e: T, u: seq<T>)
    ensures Reverse([e] + u) == Reverse(u) + [e]
  {
  }

  /** Extending the scanned window by one older row adds it at the end, unless the limit is reached. */
  lemma NewestFirstStep(log: seq<Entry>, i: nat, uid: string, limit: nat)
    requires 0 < i <= |log|
    ensures NewestFirst(log[i - 1..], uid, limit) ==
            (if log[i - 1].userId == uid && |NewestFirst(log[i..], uid, limit)| < limit
             then NewestFirst(log[i..], uid, limit) + [log[i - 1]]
             else NewestFirst(log[i..], uid, limit))
  {
    var e := log[i - 1];
    assert log[i - 1..][1..] == log[i..];
    var u := UserLog(log[i..], uid);
    if e.userId == uid {
      assert UserLog(log[i - 1..], uid) == [e] + u;
      ReverseCons(e, u);
      TakeSnoc(Reverse(u), e, limit);
    } else {
      assert UserLog(log[i - 1..], uid) == [] + u;
      assert [] + u == u;
    }
  }

  /**
   * The query as `get_chat_history` phrases it: rows of the user ordered by timestamp
   * descending, cut at `limit`, then reversed. It returns exactly
   * `get_chat_history`'s most recent window.
   */
  method QueryChatHistory(st: Store, uid: string, limit: nat) returns (h: seq<Entry>)
    ensures h == GetChatHistory(st, uid, limit)
  {
    if uid == "" {
      return [];
    }
    var newestFirst: seq<Entry> := [];
    var i := |st.log|;
    while i > 0
      invariant 0 <= i <= |st.log|
      invariant newestFirst == NewestFirst(st.log[i..], uid, limit)
    {
      NewestFirstStep(st.log, i, uid, limit);
      i := i - 1;
      if st.log[i].userId == uid && |newestFirst| < limit {
        newestFirst := newestFirst + [st.log[i]];
      }
    }
    assert st.log[0..] == st.log;
    ReverseTakeReverse(UserLog(st.log, uid), limit);
    h := Reverse(newestFirst);
  }
}
