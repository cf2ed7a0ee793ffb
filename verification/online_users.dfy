/**
 * The online-users panel of components/OnlineUsersPanel.tsx: each online
 * user's initials, label, "me" marker and the row they edit, from the
 * presence state of hooks/usePresence.ts.
 */
module OnlineUsers {
  import opened Common
  import Text
  import Presence
  import TaskFeed

  type OnlineUser = Presence.OnlineUser
  type EditingUser = Presence.EditingUser
  type Task = TaskFeed.Task

  const SnippetLength := 36
  const LabelKeyLength := 12
  const Ellipsis := "…"
  const SomeRow := "Bir satır"

  /** JavaScript's truth of an optional string: present and not empty. */
  predicate Filled(s: Option<string>) {
    s.Some? && s.value != ""
  }

  // ---------------------------------------------------------------------------
  // Initials and label

  /** `getInitials`: the first letters of the first and last word of a name of
      two words or more; the first two characters of a one-word name; else
      the first two characters of the address, the last two of the key, or
      "?". */
  function Initials(name: Option<string>, email: Option<string>, key: Option<string>): (r: string)
    ensures 1 <= |r| <= 2
    ensures name.Some? && Text.Trim(name.value) != "" && |Text.Words(name.value)| < 2 ==>
      r == Text.Upper(Text.Take(name.value, 2))
  {
    if name.Some? && Text.Trim(name.value) != "" then NameInitials(name.value)
    else if Filled(email) then Text.Upper(Text.Take(email.value, 2))
    else if Filled(key) then Text.Upper(Text.TakeLast(key.value, 2))
    else "?"
  }

  /** The initials of a name that is not blank: first and last word, or
      the first two characters. */
  function NameInitials(name: string): (r: string)
    ensures |r| <= 2
    ensures name != "" ==> 1 <= |r|
  {
    var parts := Text.Words(name);
    if |parts| >= 2 then Text.Upper([parts[0][0], parts[|parts| - 1][0]])
    else Text.Upper(Text.Take(name, 2))
  }

  /** Without a usable name the initials come from the address, else from
      the key: each is the upper-cased character at the same place. */
  lemma InitialsFallBack(name: Option<string>, email: Option<string>, key: Option<string>, i: nat)
    requires !(name.Some? && Text.Trim(name.value) != "")
    requires i < |Initials(name, email, key)|
    ensures Filled(email) ==>
      && |Initials(name, email, key)| == (if |email.value| < 2 then |email.value| else 2)
      && Initials(name, email, key)[i] == Text.UpperChar(email.value[i])
    ensures !Filled(email) && Filled(key) ==>
      var k := key.value;
      |Initials(name, email, key)| == (if |k| < 2 then |k| else 2)
      && Initials(name, email, key)[i] == Text.UpperChar(k[|k| - |Initials(name, email, key)| + i])
    ensures !Filled(email) && !Filled(key) ==> Initials(name, email, key) == "?"
  {
  }

  /** A name of two words or more gives the same initials however it is
      spaced: only its first and last word count. */
  lemma InitialsIgnoreSpacing(a: string, b: string, email: Option<string>, key: Option<string>)
    requires Text.Trim(a) != "" && Text.Trim(b) != ""
    requires Text.Words(a) == Text.Words(b) && |Text.Words(a)| >= 2
    ensures Initials(Some(a), email, key) == Initials(Some(b), None, None)
  {
    var w := Text.Words(a);
    InitialsOfWords(a, w, email, key);
    InitialsOfWords(b, w, None, None);
  }

  /** A name of two words or more gives the upper-cased first letters of its
      first and last word, whatever the address and key. */
  lemma InitialsOfWords(name: string, w: seq<string>, email: Option<string>, key: Option<string>)
    requires Text.Trim(name) != "" && w == Text.Words(name) && |w| >= 2
    ensures |w[0]| > 0 && |w[|w| - 1]| > 0
    ensures Initials(Some(name), email, key) == Text.Upper([w[0][0], w[|w| - 1][0]])
  {
    NameInitialsOfWords(name, w);
  }

  lemma NameInitialsOfWords(name: string, w: seq<string>)
    requires w == Text.Words(name) && |w| >= 2
    ensures |w[0]| > 0 && |w[|w| - 1]| > 0
    ensures NameInitials(name) == Text.Upper([w[0][0], w[|w| - 1][0]])
  {
    assert Text.IsWord(w[0]) && Text.IsWord(w[|w| - 1]);
  }

  /** `getDisplayLabel`: the trimmed name when it is not blank, else the
      address, else the first twelve characters of the key and an ellipsis. */
  function DisplayLabel(u: OnlineUser): (r: string)
    ensures r != ""
    ensures u.name.Some? && Text.Trim(u.name.value) != "" ==> r == Text.Trim(u.name.value) && Text.IsTrimmed(r)
    ensures !(u.name.Some? && Text.Trim(u.name.value) != "") && !Filled(u.email) ==>
      Text.StartsWith(u.key, r[..|r| - 1]) && |r| <= LabelKeyLength + 1 && r[|r| - 1] == '…'
    ensures !(u.name.Some? && Text.Trim(u.name.value) != "") && !Filled(u.email) ==>
      |r| == (if |u.key| < LabelKeyLength then |u.key| else LabelKeyLength) + 1
    ensures !(u.name.Some? && Text.Trim(u.name.value) != "") && Filled(u.email) ==> r == u.email.value
  {
    if u.name.Some? && Text.Trim(u.name.value) != "" then
      TrimmedIsTrimmed(u.name.value);
      Text.Trim(u.name.value)
    else if Filled(u.email) then u.email.value
    else
      var r := Text.Take(u.key, LabelKeyLength) + Ellipsis;
      assert r[..|r| - 1] == Text.Take(u.key, LabelKeyLength);
      r
  }

  /** Where the label is the address, or a one-word name with no blanks
      around it, the initials are the label's first two characters in upper
      case. */
  lemma InitialsOfLabel(u: OnlineUser)
    requires
      || (!(u.name.Some? && Text.Trim(u.name.value) != "") && Filled(u.email))
      || (u.name.Some? && u.name.value != "" && Text.IsTrimmed(u.name.value) && |Text.Words(u.name.value)| < 2)
    ensures Initials(u.name, u.email, Some(u.key)) == Text.Upper(Text.Take(DisplayLabel(u), 2))
  {
    if u.name.Some? && u.name.value != "" && Text.IsTrimmed(u.name.value) {
      Text.TrimOfTrimmed(u.name.value);
    }
  }

  lemma TrimmedIsTrimmed(s: string)
    ensures Text.IsTrimmed(Text.Trim(s))
  {
    Text.TrimIdempotent(s);
    var t := Text.Trim(s);
    if !Text.IsTrimmed(t) {
      Text.TrimOfTrimmed(t);
    }
  }

  // ---------------------------------------------------------------------------
  // The row a user edits

  function NormOf(s: Option<string>): string {
    Text.Norm(GetOr(s, ""))
  }

  /** The editor of a row is this user: the same normalised address, or the
      same normalised name; a blank field of the user matches nothing. */
  predicate SameUser(u: OnlineUser, e: EditingUser) {
    (NormOf(u.email) != "" && NormOf(e.email) == NormOf(u.email))
      || (NormOf(u.name) != "" && NormOf(e.name) == NormOf(u.name))
  }

  function EditedBy(u: OnlineUser): ((string, EditingUser)) -> bool {
    (e: (string, EditingUser)) => SameUser(u, e.1)
  }

  /** The index of the first element from `k` on that satisfies `p`. */
  function FirstFrom<T>(s: seq<T>, p: T -> bool, k: nat): (r: Option<nat>)
    ensures r.Some? ==> k <= r.value < |s|
    decreases |s| - k
  {
    if k >= |s| then None
    else if p(s[k]) then Some(k)
    else FirstFrom(s, p, k + 1)
  }

  /** Index `i` satisfies `p` and no index from `k` on before it does. */
  predicate FirstAt<T>(s: seq<T>, p: T -> bool, k: nat, i: int) {
    k <= i < |s| && p(s[i]) && forall j :: k <= j < i ==> !p(s[j])
  }

  lemma {:induction false} FirstFromSpec<T>(s: seq<T>, p: T -> bool, k: nat)
    ensures FirstFrom(s, p, k).None? <==> forall i :: k <= i < |s| ==> !p(s[i])
    ensures FirstFrom(s, p, k).Some? ==> FirstAt(s, p, k, FirstFrom(s, p, k).value)
    decreases |s| - k
  {
    if k < |s| && !p(s[k]) {
      FirstFromSpec(s, p, k + 1);
    }
  }

  /** `getEditingRowIdForUser`: the first row, in map order, whose editor is
      this user. */
  function EditingRowFor(u: OnlineUser, editing: seq<(string, EditingUser)>): (r: Option<string>) {
    match FirstFrom(editing, EditedBy(u), 0)
    case Some(i) => Some(editing[i].0)
    case None => None
  }

  /** The row reported is the first row the user edits, and there is none
      exactly when no row's editor is the user; in particular a user whose
      address and name are both blank is never shown editing. */
  lemma EditingRowForSpec(u: OnlineUser, editing: seq<(string, EditingUser)>)
    ensures EditingRowFor(u, editing).None? <==> forall i :: 0 <= i < |editing| ==> !SameUser(u, editing[i].1)
    ensures EditingRowFor(u, editing).Some? ==>
      exists i :: FirstAt(editing, EditedBy(u), 0, i) && editing[i].0 == EditingRowFor(u, editing).value
    ensures NormOf(u.email) == "" && NormOf(u.name) == "" ==> EditingRowFor(u, editing).None?
  {
    FirstFromSpec(editing, EditedBy(u), 0);
    assert forall i :: 0 <= i < |editing| ==> EditedBy(u)(editing[i]) == SameUser(u, editing[i].1);
  }

  // ---------------------------------------------------------------------------
  // "Me" and the snippet

  /** `isMe`: the user's trimmed, lower-cased address equals the current
      user's. */
  predicate IsMe(u: OnlineUser, current: Option<string>) {
    NormOf(u.email) == NormOf(current)
  }

  /** Without a current address, every online user without an address is
      marked as "me". */
  lemma NoAddressIsMeWhenSignedOut(u: OnlineUser)
    requires u.email.None?
    ensures IsMe(u, None)
  {
    assert Text.Trim("") == "";
  }

  /** `taskById`: the last task with each id wins, as `Map.set` overwrites. */
  function TaskById(tasks: seq<Task>, id: string): (r: Option<Task>)
    ensures r.Some? ==> r.value in tasks && r.value.id == id
    ensures r.None? <==> forall i :: 0 <= i < |tasks| ==> tasks[i].id != id
  {
    var m := seq(|tasks|, i requires 0 <= i < |tasks| => (tasks[i].id, tasks[i]));
    var r := Lookup(m, id);
    assert forall i :: 0 <= i < |tasks| ==> m[i].0 == tasks[i].id;
    if r.Some? then
      var i :| 0 <= i < |m| && m[i] == (id, r.value);
      assert tasks[i] == r.value;
      r
    else r
  }

  /** The editing note: the row's task content cut to 36 characters (with an
      ellipsis when it was longer), "Bir satır" for a row whose task has no
      content or is unknown, and nothing when the user edits no row. */
  function Snippet(rowId: Option<string>, tasks: seq<Task>): (r: Option<string>)
    ensures r.None? <==> !Filled(rowId)
    ensures r.Some? ==> |r.value| <= SnippetLength + 1
    ensures Filled(rowId) && (forall i :: 0 <= i < |tasks| ==> tasks[i].id != rowId.value) ==> r == Some(SomeRow)
  {
    if !Filled(rowId) then None
    else
      var task := TaskById(tasks, rowId.value);
      if task.Some? && task.value.content != "" then
        var c := task.value.content;
        Some(Text.Take(c, SnippetLength) + (if |c| > SnippetLength then Ellipsis else ""))
      else Some(SomeRow)
  }

  /** A content of at most 36 characters is shown whole; a longer one is cut
      to its first 36 characters followed by an ellipsis. */
  lemma SnippetOfContent(rowId: string, tasks: seq<Task>, t: Task)
    requires rowId != "" && TaskById(tasks, rowId) == Some(t) && t.content != ""
    ensures |t.content| <= SnippetLength ==> Snippet(Some(rowId), tasks) == Some(t.content)
    ensures |t.content| > SnippetLength ==>
      Snippet(Some(rowId), tasks) == Some(t.content[..SnippetLength] + Ellipsis)
  {
    if |t.content| <= SnippetLength {
      assert Text.Take(t.content, SnippetLength) + "" == t.content;
    }
  }

  // ---------------------------------------------------------------------------
  // The panel

  datatype Entry = Entry(key: string, initials: string, caption: string, isMe: bool, editing: Option<string>)

  function EntryOf(u: OnlineUser, editing: seq<(string, EditingUser)>, current: Option<string>, tasks: seq<Task>): Entry {
    Entry(u.key, Initials(u.name, u.email, Some(u.key)), DisplayLabel(u), IsMe(u, current),
      Snippet(EditingRowFor(u, editing), tasks))
  }

  /** Nothing for an empty list; the count badge alone in compact mode;
      otherwise the badge and one entry per online user, in list order. */
  datatype Panel = Hidden | Badge(count: nat) | Listing(count: nat, entries: seq<Entry>)

  function RenderPanel(online: seq<OnlineUser>, editing: seq<(string, EditingUser)>, current: Option<string>,
                       tasks: seq<Task>, compact: bool): (p: Panel)
    ensures p.Hidden? <==> |online| == 0
    ensures p.Badge? <==> |online| > 0 && compact
    ensures !p.Hidden? ==> p.count == |online|
    ensures p.Listing? ==> |p.entries| == |online|
    ensures p.Listing? ==> forall i :: 0 <= i < |online| ==> p.entries[i].key == online[i].key
  {
    if |online| == 0 then Hidden
    else if compact then Badge(|online|)
    else Listing(|online|, seq(|online|, i requires 0 <= i < |online| => EntryOf(online[i], editing, current, tasks)))
  }
}
