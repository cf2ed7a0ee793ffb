/**
 * The settings store of contexts/settings-context.tsx: the defaults, the
 * merge of stored settings over them, per-key updates, section and full
 * resets, and the dirty flag that the debounced or explicit save clears.
 */
module Settings {
  import opened Common
  import opened JsValue

  /** The ten keys of `Settings`. */
  datatype Key =
    | Theme | Language | DateFormat | SidebarCollapsedByDefault
    | NotificationsEmail | NotificationsPush | NotificationsSound
    | DebugMode | LogLevel | ExperimentalFeatures

  /** The property name a key is stored under. */
  function KeyName(k: Key): string {
    match k
    case Theme => "theme"
    case Language => "language"
    case DateFormat => "dateFormat"
    case SidebarCollapsedByDefault => "sidebarCollapsedByDefault"
    case NotificationsEmail => "notificationsEmail"
    case NotificationsPush => "notificationsPush"
    case NotificationsSound => "notificationsSound"
    case DebugMode => "debugMode"
    case LogLevel => "logLevel"
    case ExperimentalFeatures => "experimentalFeatures"
  }

  /** A settings object. Values are whatever was stored: the stored JSON is
      not validated against the declared value types. */
  type Settings = map<Key, Value>

  /** Every key has a value. */
  predicate Complete(s: Settings) {
    forall k: Key :: k in s
  }

  /** `DEFAULT_SETTINGS` */
  const Defaults: Settings := map[
    Theme := Str("system"),
    Language := Str("tr"),
    DateFormat := Str("DD.MM.YYYY"),
    SidebarCollapsedByDefault := Bool(false),
    NotificationsEmail := Bool(true),
    NotificationsPush := Bool(false),
    NotificationsSound := Bool(true),
    DebugMode := Bool(false),
    LogLevel := Str("info"),
    ExperimentalFeatures := Bool(false)]

  /** The default value of one key. */
  function Default(k: Key): (v: Value)
    ensures k in Defaults && Defaults[k] == v
  {
    DefaultsComplete();
    Defaults[k]
  }

  /** Two complete settings objects with the same values are equal. */
  lemma CompleteEqual(a: Settings, b: Settings)
    requires Complete(a) && Complete(b)
    requires forall k: Key :: a[k] == b[k]
    ensures a == b
  {
  }

  lemma DefaultsComplete()
    ensures Complete(Defaults)
  {
    forall k: Key ensures k in Defaults {
      match k
      case Theme => case Language => case DateFormat => case SidebarCollapsedByDefault =>
      case NotificationsEmail => case NotificationsPush => case NotificationsSound =>
      case DebugMode => case LogLevel => case ExperimentalFeatures =>
    }
  }

  // ---------------------------------------------------------------------------
  // Sections

  datatype Section = General | Appearance | Notifications | Advanced

  /** `SECTION_KEYS`: genel, gorunum, bildirimler, gelismis. */
  function SectionKeys(sec: Section): seq<Key> {
    match sec
    case General => [Language, DateFormat]
    case Appearance => [Theme, SidebarCollapsedByDefault]
    case Notifications => [NotificationsEmail, NotificationsPush, NotificationsSound]
    case Advanced => [DebugMode, LogLevel, ExperimentalFeatures]
  }

  /** The section a key is reset with. */
  function SectionOf(k: Key): Section {
    match k
    case Language | DateFormat => General
    case Theme | SidebarCollapsedByDefault => Appearance
    case NotificationsEmail | NotificationsPush | NotificationsSound => Notifications
    case DebugMode | LogLevel | ExperimentalFeatures => Advanced
  }

  /** The sections partition the keys: every key is in exactly one section. */
  lemma SectionsPartition(k: Key, sec: Section)
    ensures k in SectionKeys(sec) <==> sec == SectionOf(k)
  {
  }

  // ---------------------------------------------------------------------------
  // Loading

  /** What `loadSettings` finds: no browser window, no (or an empty) stored
      string, a string `JSON.parse` rejects, or the parsed value. */
  datatype Stored = NoWindow | NothingStored | Unparsable | Parsed(value: Value)

  /** `{ ...DEFAULT_SETTINGS, ...parsed }` restricted to the settings keys:
      a key present in a parsed object wins, every other key keeps its
      default. Spreading anything but an object sets none of the keys. */
  function Load(st: Stored): (s: Settings)
    ensures Complete(s)
    ensures !st.Parsed? ==> s == Defaults
    ensures st.Parsed? ==> forall k: Key ::
      s[k] == (if Prop(st.value, KeyName(k)).Some? then Prop(st.value, KeyName(k)).value else Defaults[k])
  {
    DefaultsComplete();
    match st
    case Parsed(v) => map k | k in Defaults :: GetOr(Prop(v, KeyName(k)), Defaults[k])
    case _ => Defaults
  }

  /** Loading a stored copy of the defaults, or of anything that is not an
      object, gives the defaults. */
  lemma LoadNonObject(v: Value)
    requires !v.Obj?
    ensures Load(Parsed(v)) == Defaults
  {
    DefaultsComplete();
  }

  /** Storing complete settings as a JSON object and loading them gives them back. */
  lemma LoadRoundTrip(s: Settings)
    requires Complete(s)
    ensures Load(Parsed(Obj(Serialize(s)))) == s
  {
    var loaded := Load(Parsed(Obj(Serialize(s))));
    forall k: Key ensures loaded[k] == s[k] {
      SerializeLookup(s, k);
    }
    CompleteEqual(loaded, s);
  }

  /** Every key, in `DEFAULT_SETTINGS`' order. */
  const AllKeys: seq<Key> := [
    Theme, Language, DateFormat, SidebarCollapsedByDefault, NotificationsEmail,
    NotificationsPush, NotificationsSound, DebugMode, LogLevel, ExperimentalFeatures]

  /** `JSON.stringify(settings)` as an object in `DEFAULT_SETTINGS`' key order. */
  function Serialize(s: Settings): (row: Row)
    requires Complete(s)
    ensures |row| == |AllKeys|
    ensures forall i :: 0 <= i < |row| ==> row[i] == (KeyName(AllKeys[i]), s[AllKeys[i]])
  {
    seq(|AllKeys|, i requires 0 <= i < |AllKeys| => (KeyName(AllKeys[i]), s[AllKeys[i]]))
  }

  lemma SerializeLookup(s: Settings, k: Key)
    requires Complete(s)
    ensures Lookup(Serialize(s), KeyName(k)) == Some(s[k])
  {
    var row := Serialize(s);
    assert DistinctKeys(row) by {
      forall i, j | 0 <= i < j < |row| ensures row[i].0 != row[j].0 {
        AllKeysDistinct(i, j);
        KeyNameInjective(AllKeys[i], AllKeys[j]);
      }
    }
    var i := Position(k);
    assert row[i] == (KeyName(k), s[k]);
    LookupIndex(row, i);
  }

  /** Where a key sits in `DEFAULT_SETTINGS`. */
  function Position(k: Key): (i: nat)
    ensures i < |AllKeys| && AllKeys[i] == k
  {
    match k
    case Theme => 0 case Language => 1 case DateFormat => 2 case SidebarCollapsedByDefault => 3
    case NotificationsEmail => 4 case NotificationsPush => 5 case NotificationsSound => 6
    case DebugMode => 7 case LogLevel => 8 case ExperimentalFeatures => 9
  }

  lemma AllKeysDistinct(i: nat, j: nat)
    requires i < j < |AllKeys|
    ensures AllKeys[i] != AllKeys[j]
  {
  }

  /** The key a stored property name belongs to. */
  function FromName(n: string): (k: Option<Key>)
    ensures k.Some? ==> KeyName(k.value) == n
  {
    if n == "theme" then Some(Theme)
    else if n == "language" then Some(Language)
    else if n == "dateFormat" then Some(DateFormat)
    else if n == "sidebarCollapsedByDefault" then Some(SidebarCollapsedByDefault)
    else if n == "notificationsEmail" then Some(NotificationsEmail)
    else if n == "notificationsPush" then Some(NotificationsPush)
    else if n == "notificationsSound" then Some(NotificationsSound)
    else if n == "debugMode" then Some(DebugMode)
    else if n == "logLevel" then Some(LogLevel)
    else if n == "experimentalFeatures" then Some(ExperimentalFeatures)
    else None
  }

  /** Each key's name reads back as that key, so distinct keys are stored
      under distinct names. */
  lemma NameRoundTrip(k: Key)
    ensures FromName(KeyName(k)) == Some(k)
  {
    assert "language"[1] != "logLevel"[1];
    assert "notificationsEmail"[13] != "notificationsSound"[13];
  }

  lemma KeyNameInjective(a: Key, b: Key)
    ensures KeyName(a) == KeyName(b) ==> a == b
  {
    NameRoundTrip(a);
    NameRoundTrip(b);
  }

  // ---------------------------------------------------------------------------
  // The provider

  /** The provider's state: the edited settings, the last saved copy, whether
      the stored settings have been loaded, and whether a debounced save is
      scheduled. */
  datatype Provider = Provider(settings: Settings, initial: Settings, mounted: bool, saveScheduled: bool)

  const Start := Provider(Defaults, Defaults, false, false)

  /** Mounting loads the stored settings into both copies. */
  function Mount(p: Provider, st: Stored): (q: Provider)
    ensures q.settings == q.initial == Load(st) && q.mounted
  {
    Provider(Load(st), Load(st), true, true)
  }

  /** A new settings object re-arms the debounce once mounted. */
  function Edited(p: Provider, next: Settings): Provider {
    p.(settings := next, saveScheduled := p.mounted)
  }

  /** `updateSetting(key, value)`: exactly that key changes. */
  function UpdateSetting(p: Provider, k: Key, v: Value): (q: Provider)
    ensures k in q.settings && q.settings[k] == v
    ensures forall j :: j != k ==> (j in q.settings <==> j in p.settings)
    ensures forall j :: j != k && j in p.settings ==> q.settings[j] == p.settings[j]
    ensures q.initial == p.initial && q.mounted == p.mounted
  {
    Edited(p, p.settings[k := v])
  }

  /** `resetToDefaults`: both copies become the defaults. */
  function ResetToDefaults(p: Provider): (q: Provider)
    ensures q.settings == q.initial == Defaults
  {
    Edited(p, Defaults).(initial := Defaults)
  }

  /** Sets the keys of `keys` to their defaults, one after another. */
  function ResetKeys(s: Settings, keys: seq<Key>): (r: Settings)
    ensures forall k :: k in keys ==> k in r && r[k] == Default(k)
    ensures forall k :: k !in keys ==> (k in r <==> k in s)
    ensures forall k :: k !in keys && k in s ==> r[k] == s[k]
    decreases |keys|
  {
    if |keys| == 0 then s else ResetKeys(s[keys[0] := Default(keys[0])], keys[1..])
  }

  /** `resetSection(section)`: that section's keys return to their defaults
      in both copies; every other key keeps its value in both. */
  function ResetSection(p: Provider, sec: Section): Provider {
    Edited(p, ResetKeys(p.settings, SectionKeys(sec))).(initial := ResetKeys(p.initial, SectionKeys(sec)))
  }

  lemma ResetSectionEffect(p: Provider, sec: Section, k: Key)
    requires Complete(p.settings) && Complete(p.initial)
    ensures var q := ResetSection(p, sec);
      && Complete(q.settings) && Complete(q.initial)
      && (SectionOf(k) == sec ==> q.settings[k] == q.initial[k] == Default(k))
      && (SectionOf(k) != sec ==> q.settings[k] == p.settings[k] && q.initial[k] == p.initial[k])
  {
    forall j: Key ensures SectionOf(j) == sec <==> j in SectionKeys(sec) {
      SectionsPartition(j, sec);
    }
  }

  /** Resetting the four sections one after another is a full reset of the
      edited settings. */
  lemma AllSectionsAreDefaults(p: Provider)
    requires Complete(p.settings)
    ensures ResetSection(ResetSection(ResetSection(ResetSection(p, General), Appearance), Notifications), Advanced).settings
      == ResetToDefaults(p).settings
  {
    var s1 := ResetKeys(p.settings, SectionKeys(General));
    var s2 := ResetKeys(s1, SectionKeys(Appearance));
    var s3 := ResetKeys(s2, SectionKeys(Notifications));
    var s4 := ResetKeys(s3, SectionKeys(Advanced));
    forall k: Key ensures k in s4 && s4[k] == Default(k) {
      SectionsPartition(k, General);
      SectionsPartition(k, Appearance);
      SectionsPartition(k, Notifications);
      SectionsPartition(k, Advanced);
    }
    DefaultsComplete();
    CompleteEqual(s4, Defaults);
  }

  /** `isDirty`: loaded, and the settings differ from the last saved copy.
      The two objects always list the keys in the defaults' order, so
      comparing their JSON text compares their values. */
  predicate IsDirty(p: Provider) {
    p.mounted && p.settings != p.initial
  }

  /** `save`: the saved copy catches up and the scheduled save is cancelled. */
  function Save(p: Provider): (q: Provider)
    ensures !IsDirty(q) && !q.saveScheduled
    ensures q.settings == p.settings
  {
    p.(initial := p.settings, saveScheduled := false)
  }

  /** The debounce timer fires: if a save is scheduled, the same effect as `save`. */
  function SaveFires(p: Provider): (q: Provider)
    ensures Pending(p) ==> !IsDirty(q)
    ensures q.settings == p.settings
  {
    if p.saveScheduled then p.(initial := p.settings, saveScheduled := false) else p
  }

  /** Unsaved edits always have a save scheduled, so the timer clears them. */
  predicate Pending(p: Provider) {
    IsDirty(p) ==> p.saveScheduled
  }

  /** Every operation keeps unsaved edits scheduled for saving. */
  lemma PendingInvariant(p: Provider, st: Stored, k: Key, v: Value, sec: Section)
    requires Pending(p)
    ensures Pending(Start)
    ensures Pending(Mount(p, st))
    ensures Pending(UpdateSetting(p, k, v))
    ensures Pending(ResetToDefaults(p))
    ensures Pending(ResetSection(p, sec))
    ensures Pending(Save(p))
    ensures Pending(SaveFires(p))
  {
  }

  /** Once loaded, an update schedules a save, and the provider is dirty
      exactly when the updated settings differ from the saved copy. */
  lemma UpdateSchedulesSave(p: Provider, k: Key, v: Value)
    requires p.mounted
    ensures UpdateSetting(p, k, v).saveScheduled
    ensures IsDirty(UpdateSetting(p, k, v)) <==> p.settings[k := v] != p.initial
  {
  }

  /** Setting a key back to its saved value on a clean provider leaves it clean. */
  lemma UpdateToSavedIsClean(p: Provider, k: Key)
    requires !IsDirty(p) && k in p.initial
    ensures !IsDirty(UpdateSetting(p, k, p.initial[k]))
  {
    if p.mounted {
      assert p.settings[k := p.initial[k]] == p.initial;
    }
  }

  /** A full reset leaves the provider clean. */
  lemma ResetToDefaultsIsClean(p: Provider)
    ensures !IsDirty(ResetToDefaults(p))
  {
  }
}
