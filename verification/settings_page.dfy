/**
 * The logic of the settings page, app/ayarlar/page.tsx: the search filter
 * over the setting rows, the password form, the session list, the API key
 * and webhook lists, and the confirmation gate of the full reset. The
 * clock and random suffixes the page uses for new ids are inputs; the
 * database calls of the reset are left out.
 */
module SettingsPage {
  import opened Common
  import Text

  // ---------------------------------------------------------------------------
  // Search

  /** `matchesSearch`: a blank query matches every row; otherwise the
      trimmed, lower-cased query must occur in the lower-cased label or
      description. */
  predicate MatchesSearch(query: string, caption: string, description: Option<string>) {
    var q := Text.Norm(query);
    q == "" || Text.Contains(Text.Lower(caption), q)
    || (description.Some? && Text.Contains(Text.Lower(description.value), q))
  }

  /** "Nothing matches" is shown for a query that is not blank and that no
      row of the section matches. */
  predicate NoneMatch(query: string, matches: seq<bool>) {
    Text.Trim(query) != "" && forall i :: 0 <= i < |matches| ==> !matches[i]
  }

  /** Capitals and surrounding blanks in the query make no difference. */
  lemma SearchIgnoresCase(query: string, caption: string, description: Option<string>)
    ensures MatchesSearch(Text.Lower(query), caption, description) == MatchesSearch(query, caption, description)
  {
    Text.TrimLowerCommute(query);
    Text.LowerIdempotent(Text.Trim(query));
  }

  /** A row is always found by its own caption, whatever blanks surround the
      typed text. */
  lemma SearchFindsOwnLabel(caption: string, description: Option<string>)
    ensures MatchesSearch(caption, caption, description)
  {
    var t := Text.Trim(caption);
    var k := Text.TrimOffset(caption);
    if t != "" {
      Text.LowerSlice(caption, k, k + |t|);
      assert Text.OccursAt(Text.Lower(caption), Text.Norm(caption), k);
    }
  }

  /** A blank query never shows "nothing matches", and a query any row
      matches does not either. */
  lemma NoneMatchNeedsQuery(query: string, matches: seq<bool>, i: nat)
    requires i < |matches| && matches[i]
    ensures !NoneMatch(query, matches)
    ensures Text.Trim(query) == "" ==> !NoneMatch(query, matches + [false])
  {
  }

  // ---------------------------------------------------------------------------
  // The password form

  datatype Message = Idle | Success | Failure

  datatype PasswordForm = PasswordForm(current: string, newPassword: string, confirm: string, message: Message)

  const MinPasswordLength := 8

  /** `handlePasswordSubmit`: a mismatch fails first, then a password shorter
      than eight characters; a success clears all three fields. */
  function SubmitPassword(f: PasswordForm): (r: PasswordForm)
    ensures r.message != Idle
    ensures r.message == Success <==> f.newPassword == f.confirm && |f.newPassword| >= MinPasswordLength
    ensures r.message == Success ==> r.current == "" && r.newPassword == "" && r.confirm == ""
    ensures r.message == Failure ==> r == f.(message := Failure)
  {
    if f.newPassword != f.confirm then f.(message := Failure)
    else if |f.newPassword| < MinPasswordLength then f.(message := Failure)
    else PasswordForm("", "", "", Success)
  }

  /** The current password is never checked: whatever was typed there, the
      outcome is the same. */
  lemma CurrentPasswordIgnored(f: PasswordForm, other: string)
    ensures SubmitPassword(f.(current := other)).message == SubmitPassword(f).message
  {
  }

  /** A successful submit leaves nothing behind, so submitting again fails
      only if the empty password is too short, which it is. */
  lemma SecondSubmitFails(f: PasswordForm)
    requires SubmitPassword(f).message == Success
    ensures SubmitPassword(SubmitPassword(f)).message == Failure
  {
  }

  // ---------------------------------------------------------------------------
  // Sessions

  datatype Session = Session(id: string, device: string, current: bool)

  /** The ids that have a close button: those of the other sessions. */
  function OtherIds(sessions: seq<Session>): (ids: set<string>)
    ensures forall id :: id in ids <==> exists i :: 0 <= i < |sessions| && !sessions[i].current && sessions[i].id == id
  {
    set i | 0 <= i < |sessions| && !sessions[i].current :: sessions[i].id
  }

  /** `closeSession`, reached only from the close button of a session that
      is not the current one: that session leaves the list, every session
      already gone stays gone, and the closed ids remain among the other
      sessions' ones. */
  function CloseSession(sessions: seq<Session>, closed: set<string>, i: nat): (r: set<string>)
    requires i < |sessions| && !sessions[i].current
    ensures sessions[i] !in ActiveSessions(sessions, r)
    ensures forall s :: s in ActiveSessions(sessions, r) ==> s in ActiveSessions(sessions, closed)
    ensures closed <= OtherIds(sessions) ==> r <= OtherIds(sessions)
  {
    closed + {sessions[i].id}
  }

  /** `closeAllOther`: no session other than the current one stays listed,
      and, with unique ids, the current one does. */
  function CloseAllOther(sessions: seq<Session>): (r: set<string>)
    ensures forall s :: s in ActiveSessions(sessions, r) ==> s.current
    ensures UniqueIds(sessions) ==> forall s :: s in sessions && s.current ==> s in ActiveSessions(sessions, r)
  {
    var r := OtherIds(sessions);
    forall s | s in ActiveSessions(sessions, r) ensures s.current {
      var i :| 0 <= i < |sessions| && sessions[i] == s;
    }
    if UniqueIds(sessions) then
      assert forall s | s in sessions && s.current :: s.id !in r by {
        forall s | s in sessions && s.current ensures s.id !in r {
          var i :| 0 <= i < |sessions| && sessions[i] == s;
        }
      }
      r
    else r
  }

  function Open(closed: set<string>): Session -> bool {
    (s: Session) => s.id !in closed
  }

  /** The sessions still listed, in order. */
  function ActiveSessions(sessions: seq<Session>, closed: set<string>): (r: seq<Session>)
    ensures IsSubsequence(r, sessions)
    ensures forall s :: s in r <==> s in sessions && s.id !in closed
  {
    FilterIsSubsequence(sessions, Open(closed));
    forall s ensures s in Filter(sessions, Open(closed)) <==> s in sessions && Open(closed)(s) {
      FilterMembers(sessions, Open(closed), s);
    }
    Filter(sessions, Open(closed))
  }

  predicate UniqueIds(sessions: seq<Session>) {
    forall i, j :: 0 <= i < j < |sessions| ==> sessions[i].id != sessions[j].id
  }

  /** Only the other sessions' ids are ever closed: both ways of closing keep
      it so. */
  lemma ClosingKeepsToOthers(sessions: seq<Session>, closed: set<string>, i: nat)
    requires closed <= OtherIds(sessions)
    requires i < |sessions| && !sessions[i].current
    ensures CloseSession(sessions, closed, i) <= OtherIds(sessions)
    ensures CloseAllOther(sessions) <= OtherIds(sessions)
  {
  }

  /** With unique ids, the current session stays listed whatever was closed,
      and after closing all others only current sessions remain. */
  lemma CurrentNeverClosed(sessions: seq<Session>, closed: set<string>)
    requires UniqueIds(sessions)
    requires closed <= OtherIds(sessions)
    ensures forall s :: s in sessions && s.current ==> s in ActiveSessions(sessions, closed)
    ensures forall s :: s in ActiveSessions(sessions, CloseAllOther(sessions)) <==> s in sessions && s.current
  {
    forall s | s in sessions && s.current ensures s.id !in OtherIds(sessions) {
      var i :| 0 <= i < |sessions| && sessions[i] == s;
    }
  }

  // ---------------------------------------------------------------------------
  // API keys and webhooks

  datatype ApiKey = ApiKey(id: string, name: string, masked: string)
  datatype Webhook = Webhook(id: string, url: string, description: string)

  const MaskPrefix := "sk_live_••••••••••••"

  /** `addKey`: a new key at the end; its id (the clock) and the last four
      characters of its mask (random) are inputs. */
  function AddKey(keys: seq<ApiKey>, id: string, suffix: string): (r: seq<ApiKey>)
    ensures |r| == |keys| + 1 && r[..|keys|] == keys
    ensures r[|keys|].id == id && Text.StartsWith(r[|keys|].masked, MaskPrefix)
  {
    var k := ApiKey(id, "Yeni anahtar", MaskPrefix + suffix);
    assert (MaskPrefix + suffix)[..|MaskPrefix|] == MaskPrefix;
    keys + [k]
  }

  function KeyOther(id: string): ApiKey -> bool {
    (k: ApiKey) => k.id != id
  }

  /** `removeKey`: every key with that id goes, the others stay in order. */
  function RemoveKey(keys: seq<ApiKey>, id: string): (r: seq<ApiKey>)
    ensures IsSubsequence(r, keys)
    ensures forall k :: k in r <==> k in keys && k.id != id
  {
    FilterIsSubsequence(keys, KeyOther(id));
    forall k ensures k in Filter(keys, KeyOther(id)) <==> k in keys && KeyOther(id)(k) {
      FilterMembers(keys, KeyOther(id), k);
    }
    Filter(keys, KeyOther(id))
  }

  /** `addWebhook`: a blank URL changes nothing; otherwise the trimmed URL is
      appended under the new id (the clock) and the input is cleared. */
  function AddWebhook(hooks: seq<Webhook>, input: string, id: string): (r: (seq<Webhook>, string))
    ensures Text.Trim(input) == "" ==> r == (hooks, input)
    ensures Text.Trim(input) != "" ==> r.1 == "" && r.0 == hooks + [Webhook(id, Text.Trim(input), "Yeni webhook")]
  {
    if Text.Trim(input) == "" then (hooks, input)
    else (hooks + [Webhook(id, Text.Trim(input), "Yeni webhook")], "")
  }

  function HookOther(id: string): Webhook -> bool {
    (w: Webhook) => w.id != id
  }

  /** `removeWebhook`: every webhook with that id goes, the others stay in
      order. */
  function RemoveWebhook(hooks: seq<Webhook>, id: string): (r: seq<Webhook>)
    ensures IsSubsequence(r, hooks)
    ensures forall w :: w in r <==> w in hooks && w.id != id
  {
    FilterIsSubsequence(hooks, HookOther(id));
    forall w ensures w in Filter(hooks, HookOther(id)) <==> w in hooks && HookOther(id)(w) {
      FilterMembers(hooks, HookOther(id), w);
    }
    Filter(hooks, HookOther(id))
  }

  /** Removing a webhook just added under a fresh id restores the list. */
  lemma RemoveUndoesAdd(hooks: seq<Webhook>, input: string, id: string)
    requires forall i :: 0 <= i < |hooks| ==> hooks[i].id != id
    ensures RemoveWebhook(AddWebhook(hooks, input, id).0, id) == hooks
  {
    var added := AddWebhook(hooks, input, id).0;
    if Text.Trim(input) != "" {
      FilterAppend(hooks, [added[|hooks|]], HookOther(id));
      assert added == hooks + [added[|hooks|]];
    }
    FilterAllPass(hooks, HookOther(id));
  }

  /** Removing a key just added under a fresh id restores the list. */
  lemma RemoveKeyUndoesAdd(keys: seq<ApiKey>, id: string, suffix: string)
    requires forall i :: 0 <= i < |keys| ==> keys[i].id != id
    ensures RemoveKey(AddKey(keys, id, suffix), id) == keys
  {
    var added := AddKey(keys, id, suffix);
    assert added == keys + [added[|keys|]];
    FilterAppend(keys, [added[|keys|]], KeyOther(id));
    FilterAllPass(keys, KeyOther(id));
  }

  // ---------------------------------------------------------------------------
  // The full reset

  const ResetWord := "SIFIRLA"

  datatype ResetState = ResetState(confirmText: string, resetting: bool, error: Option<string>)

  /** The delete button is enabled only for the exact word and while no
      reset runs. */
  predicate ResetEnabled(st: ResetState) {
    st.confirmText == ResetWord && !st.resetting
  }

  /** `handleFullReset` up to its first database call: it starts (marking
      the reset as running and clearing the error) only for the exact word;
      otherwise nothing changes. */
  function StartReset(st: ResetState): (r: ResetState)
    ensures st.confirmText != ResetWord ==> r == st
    ensures st.confirmText == ResetWord ==> r.resetting && r.error.None? && r.confirmText == st.confirmText
  {
    if st.confirmText != ResetWord then st else st.(resetting := true, error := None)
  }

  /** The button and the handler agree: a click on the enabled button
      starts the reset; and no spelling but the exact word (other case, or
      surrounding blanks) starts it. */
  lemma ResetGate(st: ResetState)
    ensures ResetEnabled(st) ==> StartReset(st).resetting
    ensures StartReset(st).resetting && !st.resetting ==> st.confirmText == ResetWord
    ensures StartReset(st.(confirmText := " " + ResetWord)) == st.(confirmText := " " + ResetWord)
    ensures StartReset(st.(confirmText := "sifirla")) == st.(confirmText := "sifirla")
  {
    assert " " + ResetWord != ResetWord;
  }
}
