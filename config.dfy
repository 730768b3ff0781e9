/**
 * The node's settings: Wi-Fi and MQTT credentials plus the "reboot into
 * configuration mode" flag, either as read from storage (every field optional)
 * or filled in, and how they are loaded from and saved to the database.
 *
 * The strings are `heapless::String<N>`s, whose capacity `N` is in bytes; the
 * capacities are the `*_CAP` constants, and `WithinCapacity` is the type
 * invariant they give a `Settings` value.
 */
module Config {
  import opened Common
  import Utf8
  import Ekv
  import KvStorage

  /** The bytes `as_bytes()` gives for ASCII text: one byte per character, its code. */
  function Ascii(name: string): (b: Ekv.Bytes)
    requires Utf8.IsAscii(name)
    ensures |b| == |name| && forall i :: 0 <= i < |name| ==> b[i] as int == name[i] as int
  {
    seq(|name|, i requires 0 <= i < |name| => name[i] as int as byte)
  }

  /** For ASCII text the two agree: the keys are exactly `name.as_bytes()`. */
  lemma AsciiIsUtf8(name: string)
    requires Utf8.IsAscii(name)
    ensures Ascii(name) == Utf8.Encode(name)
  {
    Utf8.EncodeAscii(name);
  }

  /** The six keys, as the bytes `as_bytes()` gives the engine. */
  const WIFI_SSID_KEY: Ekv.Bytes := Ascii("wifi.ssid")
  const WIFI_PASSWORD_KEY: Ekv.Bytes := Ascii("wifi.password")
  const MQTT_BROKER_KEY: Ekv.Bytes := Ascii("mqtt.broker")
  const MQTT_CLIENT_ID_KEY: Ekv.Bytes := Ascii("mqtt.client_id")
  const MQTT_TOPIC_KEY: Ekv.Bytes := Ascii("mqtt.topic")
  const SYSTEM_REBOOT_TO_RECONFIGURE: Ekv.Bytes := Ascii("system.reconfig")

  const SSID_CAP: nat := 32
  const PASSWORD_CAP: nat := 64
  const BROKER_CAP: nat := 64
  const CLIENT_ID_CAP: nat := 32
  const TOPIC_CAP: nat := 64

  datatype OptionalSettings = OptionalSettings(
    wifiSsid: Option<string>,
    wifiPassword: Option<string>,
    mqttBroker: Option<string>,
    mqttClientId: Option<string>,
    mqttTopic: Option<string>,
    rebootToReconfigure: Option<bool>)

  datatype Settings = Settings(
    wifiSsid: string,
    wifiPassword: string,
    mqttBroker: string,
    mqttClientId: string,
    mqttTopic: string,
    rebootToReconfigure: bool)

  datatype SettingsEnum = Optional(optional: OptionalSettings) | FilledIn(settings: Settings)

  predicate WithinCapacity(s: Settings) {
    |Utf8.Encode(s.wifiSsid)| <= SSID_CAP &&
    |Utf8.Encode(s.wifiPassword)| <= PASSWORD_CAP &&
    |Utf8.Encode(s.mqttBroker)| <= BROKER_CAP &&
    |Utf8.Encode(s.mqttClientId)| <= CLIENT_ID_CAP &&
    |Utf8.Encode(s.mqttTopic)| <= TOPIC_CAP
  }

  /** `is_complete`: every string field is present (the flag may be absent). */
  predicate IsComplete(o: OptionalSettings) {
    o.wifiSsid.Some? && o.wifiPassword.Some? && o.mqttBroker.Some? &&
    o.mqttClientId.Some? && o.mqttTopic.Some?
  }

  /** `needs_reconfiguration`: a field is missing, or the flag is set; an absent flag counts as unset. */
  function NeedsReconfiguration(o: OptionalSettings): (b: bool)
    ensures b <==> !IsComplete(o) || o.rebootToReconfigure == Some(true)
  {
    !IsComplete(o) || o.rebootToReconfigure.UnwrapOr(false)
  }

  /**
   * `transmute`: an incomplete `Optional` comes back unchanged, a complete one is
   * promoted to `FilledIn` (an absent flag becoming false), and `FilledIn` is
   * demoted to an `Optional` with every field present. The `unreachable!()`
   * branch is the `assert false` below.
   */
  function Transmute(e: SettingsEnum): (r: SettingsEnum)
    ensures e.Optional? && !IsComplete(e.optional) ==> r == e
    ensures e.Optional? && IsComplete(e.optional) ==>
      r.FilledIn? &&
      Some(r.settings.wifiSsid) == e.optional.wifiSsid &&
      Some(r.settings.wifiPassword) == e.optional.wifiPassword &&
      Some(r.settings.mqttBroker) == e.optional.mqttBroker &&
      Some(r.settings.mqttClientId) == e.optional.mqttClientId &&
      Some(r.settings.mqttTopic) == e.optional.mqttTopic &&
      r.settings.rebootToReconfigure == (e.optional.rebootToReconfigure == Some(true))
    ensures e.FilledIn? ==>
      r.Optional? && IsComplete(r.optional) && r.optional.rebootToReconfigure.Some? &&
      !NeedsReconfiguration(r.optional) == !e.settings.rebootToReconfigure
  {
    match e
    case Optional(o) =>
      if !IsComplete(o) then e
      else (
        match (o.wifiSsid, o.wifiPassword, o.mqttBroker, o.mqttClientId, o.mqttTopic)
        case (Some(ssid), Some(password), Some(broker), Some(clientId), Some(topic)) =>
          FilledIn(Settings(ssid, password, broker, clientId, topic, o.rebootToReconfigure.UnwrapOr(false)))
        case _ => assert false; e)
    case FilledIn(s) =>
      Optional(OptionalSettings(Some(s.wifiSsid), Some(s.wifiPassword), Some(s.mqttBroker),
                                Some(s.mqttClientId), Some(s.mqttTopic), Some(s.rebootToReconfigure)))
  }

  /** Demoting and promoting again gives back the same settings. */
  lemma TransmuteFilledInRoundTrip(s: Settings)
    ensures Transmute(Transmute(FilledIn(s))) == FilledIn(s)
  {
  }

  /** A complete `Optional` with its flag present survives promotion and demotion. */
  lemma TransmuteOptionalRoundTrip(o: OptionalSettings)
    requires IsComplete(o) && o.rebootToReconfigure.Some?
    ensures Transmute(Transmute(Optional(o))) == Optional(o)
  {
  }

  /** `to_filled_in_with_default`: missing strings become "", a missing flag false. */
  function ToFilledInWithDefault(e: SettingsEnum): (s: Settings)
    ensures e.FilledIn? ==> s == e.settings
  {
    match e
    case FilledIn(s) => s
    case Optional(o) =>
      Settings(o.wifiSsid.UnwrapOr(""), o.wifiPassword.UnwrapOr(""), o.mqttBroker.UnwrapOr(""),
               o.mqttClientId.UnwrapOr(""), o.mqttTopic.UnwrapOr(""), o.rebootToReconfigure.UnwrapOr(false))
  }

  /**
   * Filling in with defaults agrees with promotion wherever promotion succeeds,
   * keeps every present field, and puts the defaults exactly where fields are
   * missing.
   */
  lemma FilledInWithDefaultAgrees(o: OptionalSettings)
    ensures IsComplete(o) ==> FilledIn(ToFilledInWithDefault(Optional(o))) == Transmute(Optional(o))
    ensures var s := ToFilledInWithDefault(Optional(o));
      (o.wifiSsid.Some? ==> s.wifiSsid == o.wifiSsid.value) &&
      (o.wifiSsid.None? ==> s.wifiSsid == "") &&
      (o.wifiPassword.Some? ==> s.wifiPassword == o.wifiPassword.value) &&
      (o.wifiPassword.None? ==> s.wifiPassword == "") &&
      (o.mqttBroker.Some? ==> s.mqttBroker == o.mqttBroker.value) &&
      (o.mqttBroker.None? ==> s.mqttBroker == "") &&
      (o.mqttClientId.Some? ==> s.mqttClientId == o.mqttClientId.value) &&
      (o.mqttClientId.None? ==> s.mqttClientId == "") &&
      (o.mqttTopic.Some? ==> s.mqttTopic == o.mqttTopic.value) &&
      (o.mqttTopic.None? ==> s.mqttTopic == "") &&
      (s.rebootToReconfigure <==> o.rebootToReconfigure == Some(true))
  {
  }

  // ----- Loading and saving -----

  /** What `get_initial_settings` yields from the committed records. */
  function InitialSettings(records: Ekv.Records, fault: Option<nat>): Result<SettingsEnum, KvStorage.DbError> {
    var ssid := KvStorage.StringSetting(records, WIFI_SSID_KEY, SSID_CAP, Healthy(fault, 0));
    if ssid.Err? then Err(ssid.error) else
    var password := KvStorage.StringSetting(records, WIFI_PASSWORD_KEY, PASSWORD_CAP, Healthy(fault, 1));
    if password.Err? then Err(password.error) else
    var broker := KvStorage.StringSetting(records, MQTT_BROKER_KEY, BROKER_CAP, Healthy(fault, 2));
    if broker.Err? then Err(broker.error) else
    var clientId := KvStorage.StringSetting(records, MQTT_CLIENT_ID_KEY, CLIENT_ID_CAP, Healthy(fault, 3));
    if clientId.Err? then Err(clientId.error) else
    var topic := KvStorage.StringSetting(records, MQTT_TOPIC_KEY, TOPIC_CAP, Healthy(fault, 4));
    if topic.Err? then Err(topic.error) else
    var reboot := KvStorage.BoolSetting(records, SYSTEM_REBOOT_TO_RECONFIGURE, Healthy(fault, 5));
    if reboot.Err? then Err(reboot.error) else
    Ok(Transmute(Optional(OptionalSettings(ssid.value, password.value, broker.value,
                                           clientId.value, topic.value, reboot.value))))
  }

  /** `get_initial_settings`: six reads, in field order, the first error ending it. */
  method GetInitialSettings(db: Ekv.Database, fault: Option<nat>) returns (r: Result<SettingsEnum, KvStorage.DbError>)
    requires db.mounted
    ensures r == InitialSettings(db.records, fault)
  {
    var ssid := KvStorage.ReadString(db, WIFI_SSID_KEY, SSID_CAP, Healthy(fault, 0));
    if ssid.Err? {
      return Err(ssid.error);
    }
    var password := KvStorage.ReadString(db, WIFI_PASSWORD_KEY, PASSWORD_CAP, Healthy(fault, 1));
    if password.Err? {
      return Err(password.error);
    }
    var broker := KvStorage.ReadString(db, MQTT_BROKER_KEY, BROKER_CAP, Healthy(fault, 2));
    if broker.Err? {
      return Err(broker.error);
    }
    var clientId := KvStorage.ReadString(db, MQTT_CLIENT_ID_KEY, CLIENT_ID_CAP, Healthy(fault, 3));
    if clientId.Err? {
      return Err(clientId.error);
    }
    var topic := KvStorage.ReadString(db, MQTT_TOPIC_KEY, TOPIC_CAP, Healthy(fault, 4));
    if topic.Err? {
      return Err(topic.error);
    }
    var reboot := KvStorage.ReadBool(db, SYSTEM_REBOOT_TO_RECONFIGURE, Healthy(fault, 5));
    if reboot.Err? {
      return Err(reboot.error);
    }
    r := Ok(Transmute(Optional(OptionalSettings(ssid.value, password.value, broker.value,
                                                clientId.value, topic.value, reboot.value))));
  }

  /** The records after a successful `save_settings`. */
  function Stored(records: Ekv.Records, s: Settings): Ekv.Records {
    records
      [(MQTT_BROKER_KEY) := Utf8.Encode(s.mqttBroker)]
      [(MQTT_CLIENT_ID_KEY) := Utf8.Encode(s.mqttClientId)]
      [(MQTT_TOPIC_KEY) := Utf8.Encode(s.mqttTopic)]
      [(SYSTEM_REBOOT_TO_RECONFIGURE) := KvStorage.EncodeBool(s.rebootToReconfigure)]
      [(WIFI_PASSWORD_KEY) := Utf8.Encode(s.wifiPassword)]
      [(WIFI_SSID_KEY) := Utf8.Encode(s.wifiSsid)]
  }

  /** The error `save_settings` reports when its operation `i` fails: six writes, then the commit. */
  function SaveFailure(i: nat): KvStorage.DbError {
    if i < 6 then KvStorage.WriteError(Ekv.WriteFault) else KvStorage.CommitError
  }

  /**
   * `save_settings` writes its six keys in ascending order, which is the
   * order the engine demands, so the write transaction never refuses one.
   */
  lemma SaveOrderAscending()
    ensures Ekv.Below((MQTT_BROKER_KEY), (MQTT_CLIENT_ID_KEY))
    ensures Ekv.Below((MQTT_CLIENT_ID_KEY), (MQTT_TOPIC_KEY))
    ensures Ekv.Below((MQTT_TOPIC_KEY), (SYSTEM_REBOOT_TO_RECONFIGURE))
    ensures Ekv.Below((SYSTEM_REBOOT_TO_RECONFIGURE), (WIFI_PASSWORD_KEY))
    ensures Ekv.Below((WIFI_PASSWORD_KEY), (WIFI_SSID_KEY))
  {
    Ekv.BelowAt(MQTT_BROKER_KEY, MQTT_CLIENT_ID_KEY, 5);
    Ekv.BelowAt(MQTT_CLIENT_ID_KEY, MQTT_TOPIC_KEY, 5);
    Ekv.BelowAt(MQTT_TOPIC_KEY, SYSTEM_REBOOT_TO_RECONFIGURE, 0);
    Ekv.BelowAt(SYSTEM_REBOOT_TO_RECONFIGURE, WIFI_PASSWORD_KEY, 0);
    Ekv.BelowAt(WIFI_PASSWORD_KEY, WIFI_SSID_KEY, 5);
  }

  /** The six keys are pairwise distinct, so no write of `save_settings` hides another. */
  lemma KeysDistinct()
    ensures var keys := [WIFI_SSID_KEY, WIFI_PASSWORD_KEY, MQTT_BROKER_KEY, MQTT_CLIENT_ID_KEY,
                         MQTT_TOPIC_KEY, SYSTEM_REBOOT_TO_RECONFIGURE];
      forall i, j :: 0 <= i < j < |keys| ==> (keys[i]) != (keys[j])
  {
    SaveOrderAscending();
    var order := [MQTT_BROKER_KEY, MQTT_CLIENT_ID_KEY, MQTT_TOPIC_KEY, SYSTEM_REBOOT_TO_RECONFIGURE,
                  WIFI_PASSWORD_KEY, WIFI_SSID_KEY];
    forall i, j | 0 <= i < j < |order|
      ensures Ekv.Below((order[i]), (order[j]))
    {
      var k := i;
      while k + 1 < j
        invariant i <= k < j
        invariant Ekv.Below((order[i]), (order[k + 1]))
      {
        Ekv.BelowTransitive((order[i]), (order[k + 1]),
                            (order[k + 2]));
        k := k + 1;
      }
    }
    forall i, j | 0 <= i < j < |order|
      ensures (order[i]) != (order[j])
    {
      Ekv.BelowIrreflexive((order[i]));
    }
  }

  /** The six keys, in the order `save_settings` writes them. */
  const SAVE_KEYS: seq<Ekv.Bytes> :=
    [MQTT_BROKER_KEY, MQTT_CLIENT_ID_KEY, MQTT_TOPIC_KEY, SYSTEM_REBOOT_TO_RECONFIGURE,
     WIFI_PASSWORD_KEY, WIFI_SSID_KEY]

  /** Each key of `keys` sorts before the next. */
  predicate InOrder(keys: seq<Ekv.Bytes>) {
    forall i :: 0 < i < |keys| ==> Ekv.Below(keys[i - 1], keys[i])
  }

  /** The writes of `save_settings` under six keys given in its order. */
  function PlanOver(keys: seq<Ekv.Bytes>, s: Settings): (plan: seq<Ekv.Op>)
    requires |keys| == 6
    ensures |plan| == 6 && forall i :: 0 <= i < 6 ==> plan[i].Put? && plan[i].key == keys[i]
  {
    [Ekv.Put(keys[0], Utf8.Encode(s.mqttBroker)),
     Ekv.Put(keys[1], Utf8.Encode(s.mqttClientId)),
     Ekv.Put(keys[2], Utf8.Encode(s.mqttTopic)),
     Ekv.Put(keys[3], KvStorage.EncodeBool(s.rebootToReconfigure)),
     Ekv.Put(keys[4], Utf8.Encode(s.wifiPassword)),
     Ekv.Put(keys[5], Utf8.Encode(s.wifiSsid))]
  }

  /** The writes `save_settings` stages, in the order it stages them. */
  function SavePlan(s: Settings): seq<Ekv.Op> {
    PlanOver(SAVE_KEYS, s)
  }

  /** Committing the plan stores each setting under its key. */
  lemma SavePlanStores(records: Ekv.Records, s: Settings)
    ensures Ekv.Apply(records, SavePlan(s)) == Stored(records, s)
  {
    var plan := SavePlan(s);
    Ekv.ApplyPut(records, [], plan[0].key, plan[0].value);
    Ekv.ApplyPut(records, plan[..1], plan[1].key, plan[1].value);
    assert plan[..1] + [plan[1]] == plan[..2];
    Ekv.ApplyPut(records, plan[..2], plan[2].key, plan[2].value);
    assert plan[..2] + [plan[2]] == plan[..3];
    Ekv.ApplyPut(records, plan[..3], plan[3].key, plan[3].value);
    assert plan[..3] + [plan[3]] == plan[..4];
    Ekv.ApplyPut(records, plan[..4], plan[4].key, plan[4].value);
    assert plan[..4] + [plan[4]] == plan[..5];
    Ekv.ApplyPut(records, plan[..5], plan[5].key, plan[5].value);
    assert plan[..5] + [plan[5]] == plan;
  }

  /**
   * The six writes of `save_settings`, staged in one transaction. The first
   * write the flash refuses is reported, and nothing after it is staged.
   */
  method StageSettings(tx: Ekv.WriteTx, s: Settings, fault: Option<nat>) returns (r: Result<(), KvStorage.DbError>)
    requires tx.ops == []
    modifies tx
    ensures (fault.None? || fault.value >= 6) ==> r == Ok(()) && tx.ops == SavePlan(s)
    ensures fault.Some? && fault.value < 6 ==> r == Err(SaveFailure(fault.value)) && |tx.ops| == fault.value
  {
    SaveOrderAscending();
    r := StageInOrder(tx, SAVE_KEYS, s, fault);
  }

  /**
   * The writes of `save_settings` under six keys in ascending order, each
   * key taking its own setting. The first write the flash refuses is
   * reported, and nothing after it is staged.
   */
  method StageInOrder(tx: Ekv.WriteTx, keys: seq<Ekv.Bytes>, s: Settings, fault: Option<nat>)
    returns (r: Result<(), KvStorage.DbError>)
    requires |keys| == 6 && InOrder(keys)
    requires tx.ops == []
    modifies tx
    ensures (fault.None? || fault.value >= 6) ==> r == Ok(()) && tx.ops == PlanOver(keys, s)
    ensures fault.Some? && fault.value < 6 ==> r == Err(SaveFailure(fault.value)) && |tx.ops| == fault.value
  {
    ghost var plan := PlanOver(keys, s);
    r := StageString(tx, plan, 0, keys[0], s.mqttBroker, fault);
    if r.Err? {
      return;
    }
    r := StageString(tx, plan, 1, keys[1], s.mqttClientId, fault);
    if r.Err? {
      return;
    }
    r := StageString(tx, plan, 2, keys[2], s.mqttTopic, fault);
    if r.Err? {
      return;
    }
    r := StageBool(tx, plan, 3, keys[3], s.rebootToReconfigure, fault);
    if r.Err? {
      return;
    }
    r := StageString(tx, plan, 4, keys[4], s.wifiPassword, fault);
    if r.Err? {
      return;
    }
    r := StageString(tx, plan, 5, keys[5], s.wifiSsid, fault);
    assert plan[..6] == plan;
  }

  /**
   * Write `k` of a plan, a string: with the first `k` writes staged, it
   * stages the next one unless it is the write the flash refuses.
   */
  method StageString(tx: Ekv.WriteTx, ghost plan: seq<Ekv.Op>, k: nat, key: Ekv.Bytes, value: string, fault: Option<nat>)
    returns (r: Result<(), KvStorage.DbError>)
    requires tx.Valid() && k < |plan| && k < 6 && tx.ops == plan[..k]
    requires plan[k] == Ekv.Put(key, Utf8.Encode(value))
    requires k == 0 || Ekv.Below(plan[k - 1].key, key)
    modifies tx
    ensures tx.Valid()
    ensures Healthy(fault, k) ==> r == Ok(()) && tx.ops == plan[..k + 1]
    ensures !Healthy(fault, k) ==> r == Err(SaveFailure(k)) && tx.ops == plan[..k]
  {
    assert k > 0 ==> tx.ops[k - 1] == plan[k - 1];
    r := KvStorage.WriteString(tx, key, value, Healthy(fault, k));
    assert plan[..k] + [plan[k]] == plan[..k + 1];
  }

  /** Write `k` of a plan, a bool, under the rules of `StageString`. */
  method StageBool(tx: Ekv.WriteTx, ghost plan: seq<Ekv.Op>, k: nat, key: Ekv.Bytes, value: bool, fault: Option<nat>)
    returns (r: Result<(), KvStorage.DbError>)
    requires tx.Valid() && k < |plan| && k < 6 && tx.ops == plan[..k]
    requires plan[k] == Ekv.Put(key, KvStorage.EncodeBool(value))
    requires k == 0 || Ekv.Below(plan[k - 1].key, key)
    modifies tx
    ensures tx.Valid()
    ensures Healthy(fault, k) ==> r == Ok(()) && tx.ops == plan[..k + 1]
    ensures !Healthy(fault, k) ==> r == Err(SaveFailure(k)) && tx.ops == plan[..k]
  {
    assert k > 0 ==> tx.ops[k - 1] == plan[k - 1];
    r := KvStorage.WriteBool(tx, key, value, Healthy(fault, k));
    assert plan[..k] + [plan[k]] == plan[..k + 1];
  }

  /**
   * `save_settings`: the six writes, then one commit. With a healthy flash the
   * plan is committed; a fault at any step is reported and, the transaction
   * never being committed, changes nothing.
   */
  method SaveSettings(db: Ekv.Database, s: Settings, fault: Option<nat>) returns (r: Result<(), KvStorage.DbError>)
    requires db.mounted
    modifies db
    ensures db.mounted
    ensures (fault.None? || fault.value >= 7) ==> r == Ok(()) && db.records == Ekv.Apply(old(db.records), SavePlan(s))
    ensures fault.Some? && fault.value < 7 ==> r == Err(SaveFailure(fault.value)) && db.records == old(db.records)
  {
    var tx := new Ekv.WriteTx(db);
    r := StageSettings(tx, s, fault);
    if r.Err? {
      return;
    }
    var committed := tx.Commit(Healthy(fault, 6));
    if !committed {
      return Err(KvStorage.CommitError);
    }
  }

  /**
   * Saving and loading round-trip: whatever the database held before, settings
   * that fit their capacities are read back by `get_initial_settings` as
   * `FilledIn` of exactly those settings.
   */
  lemma SaveLoadRoundTrip(records: Ekv.Records, s: Settings)
    requires WithinCapacity(s)
    ensures InitialSettings(Ekv.Apply(records, SavePlan(s)), None) == Ok(FilledIn(s))
  {
    SavePlanStores(records, s);
    StoredValues(records, s);
    var stored := Stored(records, s);
    KvStorage.StringReadBack(stored, WIFI_SSID_KEY, s.wifiSsid, SSID_CAP);
    KvStorage.StringReadBack(stored, WIFI_PASSWORD_KEY, s.wifiPassword, PASSWORD_CAP);
    KvStorage.StringReadBack(stored, MQTT_BROKER_KEY, s.mqttBroker, BROKER_CAP);
    KvStorage.StringReadBack(stored, MQTT_CLIENT_ID_KEY, s.mqttClientId, CLIENT_ID_CAP);
    KvStorage.StringReadBack(stored, MQTT_TOPIC_KEY, s.mqttTopic, TOPIC_CAP);
    AllPresentLoads(stored, s);
  }

  /** Records from which every read succeeds with the setting of `s` load as `FilledIn(s)`. */
  lemma AllPresentLoads(records: Ekv.Records, s: Settings)
    requires KvStorage.StringSetting(records, WIFI_SSID_KEY, SSID_CAP, true) == Ok(Some(s.wifiSsid))
    requires KvStorage.StringSetting(records, WIFI_PASSWORD_KEY, PASSWORD_CAP, true) == Ok(Some(s.wifiPassword))
    requires KvStorage.StringSetting(records, MQTT_BROKER_KEY, BROKER_CAP, true) == Ok(Some(s.mqttBroker))
    requires KvStorage.StringSetting(records, MQTT_CLIENT_ID_KEY, CLIENT_ID_CAP, true) == Ok(Some(s.mqttClientId))
    requires KvStorage.StringSetting(records, MQTT_TOPIC_KEY, TOPIC_CAP, true) == Ok(Some(s.mqttTopic))
    requires KvStorage.BoolSetting(records, SYSTEM_REBOOT_TO_RECONFIGURE, true) == Ok(Some(s.rebootToReconfigure))
    ensures InitialSettings(records, None) == Ok(FilledIn(s))
  {
  }


  /** After the save every key holds its own setting: no later write overwrites an earlier one. */
  lemma StoredValues(records: Ekv.Records, s: Settings)
    ensures var stored := Stored(records, s);
      WIFI_SSID_KEY in stored && stored[WIFI_SSID_KEY] == Utf8.Encode(s.wifiSsid) &&
      WIFI_PASSWORD_KEY in stored && stored[WIFI_PASSWORD_KEY] == Utf8.Encode(s.wifiPassword) &&
      MQTT_BROKER_KEY in stored && stored[MQTT_BROKER_KEY] == Utf8.Encode(s.mqttBroker) &&
      MQTT_CLIENT_ID_KEY in stored && stored[MQTT_CLIENT_ID_KEY] == Utf8.Encode(s.mqttClientId) &&
      MQTT_TOPIC_KEY in stored && stored[MQTT_TOPIC_KEY] == Utf8.Encode(s.mqttTopic) &&
      SYSTEM_REBOOT_TO_RECONFIGURE in stored &&
      stored[SYSTEM_REBOOT_TO_RECONFIGURE] == KvStorage.EncodeBool(s.rebootToReconfigure)
  {
    KeysDistinct();
  }


  /** What `set_reboot` can end in: an error, or the reset that follows a successful commit. */
  datatype RebootOutcome = Failed(error: KvStorage.DbError) | Reset

  /**
   * `set_reboot`: write `system.reconfig = true`, commit, then reset the chip;
   * it never returns `Ok`. A write or commit failure is returned and changes
   * nothing.
   */
  method SetReboot(db: Ekv.Database, fault: Option<nat>) returns (r: RebootOutcome)
    requires db.mounted
    modifies db
    ensures db.mounted
    ensures r == Reset <==> Healthy(fault, 0) && Healthy(fault, 1)
    ensures r == Reset ==>
      db.records == old(db.records)[(SYSTEM_REBOOT_TO_RECONFIGURE) := KvStorage.EncodeBool(true)]
    ensures r.Failed? ==> db.records == old(db.records)
    ensures r.Failed? ==>
      r.error == if Healthy(fault, 0) then KvStorage.CommitError else KvStorage.WriteError(Ekv.WriteFault)
  {
    var records := db.records;
    var tx := new Ekv.WriteTx(db);
    var w := KvStorage.WriteBool(tx, SYSTEM_REBOOT_TO_RECONFIGURE, true, Healthy(fault, 0));
    if w.Err? {
      return Failed(w.error);
    }
    Ekv.ApplyPut(records, [], (SYSTEM_REBOOT_TO_RECONFIGURE), KvStorage.EncodeBool(true));
    var committed := tx.Commit(Healthy(fault, 1));
    if !committed {
      return Failed(KvStorage.CommitError);
    }
    r := Reset;
  }

  /**
   * After `set_reboot` the next boot asks for reconfiguration: the settings
   * read back are either incomplete or carry the flag.
   */
  lemma RebootFlagReadBack(records: Ekv.Records)
    ensures var loaded := InitialSettings(
        records[(SYSTEM_REBOOT_TO_RECONFIGURE) := KvStorage.EncodeBool(true)], None);
      loaded.Ok? ==>
        (loaded.value.FilledIn? && loaded.value.settings.rebootToReconfigure) ||
        (loaded.value.Optional? && NeedsReconfiguration(loaded.value.optional))
  {
    var flagged := records[(SYSTEM_REBOOT_TO_RECONFIGURE) := KvStorage.EncodeBool(true)];
    KvStorage.BoolRoundTrip(records, SYSTEM_REBOOT_TO_RECONFIGURE, true);
    assert KvStorage.BoolSetting(flagged, SYSTEM_REBOOT_TO_RECONFIGURE, true) == Ok(Some(true));
  }

  /**
   * After `init` has formatted the database, a flash error at mount
   * included, nothing is stored: the load finds every field missing, and
   * the device needs reconfiguration.
   */
  lemma ErasedLoadsNothing()
    ensures InitialSettings(map[], None) == Ok(Optional(OptionalSettings(None, None, None, None, None, None)))
    ensures NeedsReconfiguration(OptionalSettings(None, None, None, None, None, None))
  {
  }
}
