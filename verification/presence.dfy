/**
 * Presence bookkeeping of hooks/usePresence.ts: which other client is editing
 * which row (from "editing" broadcasts), and the online list (from presence
 * resyncs). The channel and its timers are left out; their callbacks are the
 * operations here.
 */
module Presence {
  import opened Common

  /** A client's claim: the row it edits (`null` for none) and who it is. */
  datatype Claim = Claim(rowId: Option<string>, email: Option<string>, name: Option<string>)

  /** A broadcast payload. */
  datatype Payload = Payload(clientId: string, rowId: Option<string>, email: Option<string>, name: Option<string>)

  datatype EditingUser = EditingUser(email: Option<string>, name: Option<string>)

  datatype OnlineUser = OnlineUser(key: string, email: Option<string>, name: Option<string>)

  /** The first presence entry of a key, when there is one. */
  datatype Meta = Meta(email: Option<string>, name: Option<string>)

  /** `clientToRowRef` (a Map in insertion order) and the state derived from it. */
  datatype State = State(
    claims: seq<(string, Claim)>,
    editingByOthers: set<string>,
    editingByUser: seq<(string, EditingUser)>,
    online: seq<OnlineUser>,
    subscribed: bool)

  /** A row id JavaScript treats as true: present and not empty. */
  predicate Names(c: Claim) {
    c.rowId.Some? && c.rowId.value != ""
  }

  /** `rowIds`: the rows some client's latest claim names. */
  function Rows(claims: seq<(string, Claim)>): (rows: set<string>)
    decreases |claims|
  {
    if |claims| == 0 then {}
    else
      var c := claims[|claims| - 1].1;
      Rows(claims[..|claims| - 1]) + if Names(c) then {c.rowId.value} else {}
  }

  lemma {:induction false} RowsSpec(claims: seq<(string, Claim)>, row: string)
    ensures row in Rows(claims) <==> exists i :: ClaimedAt(claims, i, row)
    decreases |claims|
  {
    if |claims| > 0 {
      var init := claims[..|claims| - 1];
      RowsSpec(init, row);
      if row in Rows(init) {
        var i :| ClaimedAt(init, i, row);
        assert ClaimedAt(claims, i, row);
      } else if row in Rows(claims) {
        assert ClaimedAt(claims, |claims| - 1, row);
      }
      if exists i :: ClaimedAt(claims, i, row) {
        var i :| ClaimedAt(claims, i, row);
        if i < |claims| - 1 {
          assert ClaimedAt(init, i, row);
        }
      }
    }
  }

  /** Client `k`'s latest claim names `row`. */
  predicate ClaimsRow(claims: seq<(string, Claim)>, k: string, row: string) {
    Lookup(claims, k).Some? && Names(Lookup(claims, k).value) && Lookup(claims, k).value.rowId.value == row
  }

  predicate ClaimedAt(claims: seq<(string, Claim)>, i: int, row: string) {
    0 <= i < |claims| && Names(claims[i].1) && claims[i].1.rowId.value == row
  }

  function UserOf(c: Claim): EditingUser {
    EditingUser(c.email, c.name)
  }

  /** `rowToUser`: each claimed row with the user of the last client (in map
      order) that names it. */
  function ByUser(claims: seq<(string, Claim)>): (r: seq<(string, EditingUser)>)
    decreases |claims|
  {
    if |claims| == 0 then []
    else
      var rest := ByUser(claims[..|claims| - 1]);
      var c := claims[|claims| - 1].1;
      if Names(c) then Upsert(rest, c.rowId.value, UserOf(c)) else rest
  }

  /** `rowToUser` has exactly the rows of `rowIds` as keys, and each row's user
      is one whose claim names it. */
  lemma {:induction false} ByUserSpec(claims: seq<(string, Claim)>, row: string)
    ensures Lookup(ByUser(claims), row).Some? <==> row in Rows(claims)
    ensures Lookup(ByUser(claims), row).Some? ==>
      exists i :: ClaimedAt(claims, i, row) && Lookup(ByUser(claims), row).value == UserOf(claims[i].1)
    decreases |claims|
  {
    if |claims| > 0 {
      var init := claims[..|claims| - 1];
      var c := claims[|claims| - 1].1;
      ByUserSpec(init, row);
      if Lookup(ByUser(init), row).Some? {
        var i :| ClaimedAt(init, i, row) && Lookup(ByUser(init), row).value == UserOf(init[i].1);
        assert ClaimedAt(claims, i, row) && init[i] == claims[i];
      }
      if Names(c) && c.rowId.value == row {
        assert ClaimedAt(claims, |claims| - 1, row);
      }
    }
  }

  const Initial := State([], {}, [], [], false)

  /** The broadcast handler: a payload with this client's own id is ignored;
      any other replaces its sender's claim and re-derives both views. */
  function Receive(st: State, me: string, p: Payload): (r: State)
    ensures p.clientId == me ==> r == st
    ensures p.clientId != me ==> Lookup(r.claims, p.clientId) == Some(Claim(p.rowId, p.email, p.name))
    ensures p.clientId != me ==> forall k :: k != p.clientId ==> Lookup(r.claims, k) == Lookup(st.claims, k)
    ensures p.clientId != me ==> r.editingByOthers == Rows(r.claims) && r.editingByUser == ByUser(r.claims)
    ensures r.online == st.online && r.subscribed == st.subscribed
  {
    if p.clientId == me then st
    else
      var claims := Upsert(st.claims, p.clientId, Claim(p.rowId, p.email, p.name));
      st.(claims := claims, editingByOthers := Rows(claims), editingByUser := ByUser(claims))
  }

  /** The derived views agree: a row has an editing user exactly when it is in
      `editingByOthers`, which holds exactly the rows some client's latest
      claim names. */
  lemma ViewsAgree(st: State, me: string, p: Payload, row: string)
    requires p.clientId != me
    ensures Lookup(Receive(st, me, p).editingByUser, row).Some? <==> row in Receive(st, me, p).editingByOthers
    ensures DistinctKeys(Receive(st, me, p).claims) ==>
      (row in Receive(st, me, p).editingByOthers <==> exists k :: ClaimsRow(Receive(st, me, p).claims, k, row))
  {
    var claims := Receive(st, me, p).claims;
    ByUserSpec(claims, row);
    if DistinctKeys(claims) {
      RowsByClient(claims, row);
    }
  }

  lemma RowsByClient(claims: seq<(string, Claim)>, row: string)
    requires DistinctKeys(claims)
    ensures row in Rows(claims) <==> exists k :: ClaimsRow(claims, k, row)
  {
    RowsSpec(claims, row);
    if row in Rows(claims) {
      var i :| ClaimedAt(claims, i, row);
      LookupIndex(claims, i);
      assert ClaimsRow(claims, claims[i].0, row);
    }
    if exists k :: ClaimsRow(claims, k, row) {
      var k :| ClaimsRow(claims, k, row);
      var i :| 0 <= i < |claims| && claims[i] == (k, Lookup(claims, k).value);
      assert ClaimedAt(claims, i, row);
    }
  }

  /** Claims arriving through `Receive` keep one binding per client. */
  lemma ReceiveKeepsKeysDistinct(st: State, me: string, p: Payload)
    requires DistinctKeys(st.claims)
    ensures DistinctKeys(Receive(st, me, p).claims)
  {
    if p.clientId != me {
      UpsertKeepsDistinct(st.claims, p.clientId, Claim(p.rowId, p.email, p.name));
    }
  }

  /** A claim for no row drops the sender's row from `editingByOthers`, unless
      another client's latest claim names the same row. */
  lemma ReleaseClaim(st: State, me: string, p: Payload, row: string)
    requires p.clientId != me && p.rowId.None? && DistinctKeys(st.claims)
    ensures row in Receive(st, me, p).editingByOthers <==> exists k :: k != p.clientId && ClaimsRow(st.claims, k, row)
  {
    var r := Receive(st, me, p);
    ReceiveKeepsKeysDistinct(st, me, p);
    ViewsAgree(st, me, p, row);
    if row in r.editingByOthers {
      var k :| ClaimsRow(r.claims, k, row);
      assert k != p.clientId;
      assert ClaimsRow(st.claims, k, row);
    }
    if exists k :: k != p.clientId && ClaimsRow(st.claims, k, row) {
      var k :| k != p.clientId && ClaimsRow(st.claims, k, row);
      assert ClaimsRow(r.claims, k, row);
    }
  }

  /** `setEditingRow`: nothing before the channel is subscribed, afterwards the
      payload to broadcast. */
  function SetEditingRow(st: State, me: string, email: Option<string>, name: Option<string>, rowId: Option<string>): (r: Option<Payload>)
    ensures r.None? <==> !st.subscribed
    ensures r.Some? ==> r.value.clientId == me && r.value.rowId == rowId
  {
    if st.subscribed then Some(Payload(me, rowId, email, name)) else None
  }

  /** Another client that receives our broadcast records our claim; we never
      record it ourselves. */
  lemma OwnBroadcastIgnored(st: State, me: string, email: Option<string>, name: Option<string>, rowId: Option<string>)
    requires st.subscribed
    ensures Receive(st, me, SetEditingRow(st, me, email, name, rowId).value) == st
  {
  }

  /** The user an entry of the presence state lists, if any: the key must be
      non-empty and have a presence. */
  predicate Listed(e: (string, seq<Meta>)) {
    e.0 != "" && |e.1| > 0
  }

  function UserAt(e: (string, seq<Meta>)): OnlineUser
    requires |e.1| > 0
  {
    OnlineUser(e.0, e.1[0].email, e.1[0].name)
  }

  predicate ListedAt(entries: seq<(string, seq<Meta>)>, i: int, u: OnlineUser) {
    0 <= i < |entries| && Listed(entries[i]) && u == UserAt(entries[i])
  }

  /** `updateOnlineFromState` over the entries of the presence state: one user
      per listed entry, in entry order. */
  function OnlineOf(entries: seq<(string, seq<Meta>)>): (list: seq<OnlineUser>)
    ensures |list| <= |entries|
    decreases |entries|
  {
    if |entries| == 0 then []
    else
      var rest := OnlineOf(entries[1..]);
      if Listed(entries[0]) then [UserAt(entries[0])] + rest else rest
  }

  /** The online list holds exactly the users the entries list. */
  lemma {:induction false} OnlineOfSpec(entries: seq<(string, seq<Meta>)>, u: OnlineUser)
    ensures u in OnlineOf(entries) <==> exists i :: ListedAt(entries, i, u)
    decreases |entries|
  {
    if |entries| > 0 {
      OnlineOfSpec(entries[1..], u);
      if Listed(entries[0]) && u == UserAt(entries[0]) {
        assert ListedAt(entries, 0, u);
      }
      if exists i :: ListedAt(entries[1..], i, u) {
        var i :| ListedAt(entries[1..], i, u);
        assert ListedAt(entries, i + 1, u);
      }
      if exists i :: ListedAt(entries, i, u) {
        var i :| ListedAt(entries, i, u);
        if i > 0 {
          assert ListedAt(entries[1..], i - 1, u);
        }
      }
    }
  }

  /** A resync never empties the online list. */
  function Resync(st: State, entries: seq<(string, seq<Meta>)>): (r: State)
    ensures |OnlineOf(entries)| == 0 ==> r == st
    ensures |OnlineOf(entries)| > 0 ==> r == st.(online := OnlineOf(entries))
    ensures |st.online| > 0 ==> |r.online| > 0
  {
    var list := OnlineOf(entries);
    if |list| > 0 then st.(online := list) else st
  }

  /** The subscribe callback on SUBSCRIBED: the channel becomes usable and this
      client is put first in the online list, unless its key is there. */
  function Subscribed(st: State, me: OnlineUser): (r: State)
    ensures r.subscribed
    ensures exists i :: 0 <= i < |r.online| && r.online[i].key == me.key
    ensures (exists i :: 0 <= i < |st.online| && st.online[i].key == me.key) ==> r.online == st.online
    ensures !(exists i :: 0 <= i < |st.online| && st.online[i].key == me.key) ==> r.online == [me] + st.online
    ensures r.claims == st.claims
  {
    if exists i :: 0 <= i < |st.online| && st.online[i].key == me.key then st.(subscribed := true)
    else
      assert ([me] + st.online)[0].key == me.key;
      st.(subscribed := true, online := [me] + st.online)
  }

  /** A second SUBSCRIBED does not list the client twice. */
  lemma SubscribedTwice(st: State, me: OnlineUser)
    ensures Subscribed(Subscribed(st, me), me) == Subscribed(st, me)
  {
  }
}
