/**
  * The constructor of `org.zbus.broker.ZbusBroker` (src/main/java/org/zbus/broker/ZbusBroker.java):
  * a broker factory that picks an in-process `JvmBroker`, an `HaBroker` over a tracker list
  * or a `SingleBroker` from the configured address.
  *
  * The HA test is `brokerAddress.matches("[\\[\\], ;]")`. `String.matches` asks the whole
  * string to match the pattern, and the pattern is one char class, so only the one-char
  * addresses `[`, `]`, `,` and `;` select HA (a space is trimmed away first). The class
  * comment promises HA for bracketed or separated lists. `Classify` models the code as
  * written; `ClassifyIntended` searches for any of those chars instead, as the comment
  * describes.
  */
module OrgZbusBroker {
  import opened Wrappers
  import opened Text

  /** The broker the constructor delegates to. `JvmBroker` has three constructors: one over
      the config's `MqServer`, one over its `MqServerConfig`, and a default one. */
  datatype Support =
    | JvmWithServer
    | JvmWithServerConfig
    | JvmDefault
    | HaBroker(address: string)
    | SingleBroker(address: string)
  {
    predicate IsJvm() { JvmWithServer? || JvmWithServerConfig? || JvmDefault? }
  }

  /** What the constructor reads from `BrokerConfig`. */
  datatype Config = Config(brokerAddress: Option<string>, hasMqServer: bool, hasMqServerConfig: bool)

  /** The chars of the class `[\[\], ;]`. */
  predicate IsHaChar(c: char) { c == '[' || c == ']' || c == ',' || c == ' ' || c == ';' }

  /** Some char of the address is in the class `[\[\], ;]`. */
  predicate HasHaChar(t: string) { exists i :: 0 <= i < |t| && IsHaChar(t[i]) }

  /** A null address or `jvm` in any case, tested before trimming. */
  predicate SelectsJvm(config: Config)
  {
    config.brokerAddress.None? || EqualsIgnoreCase("jvm", config.brokerAddress.value)
  }

  /** The `JvmBroker` over the first of `MqServer` and `MqServerConfig` that is set. */
  function Jvm(config: Config): (r: Support)
    ensures r.IsJvm()
    ensures r == JvmWithServer <==> config.hasMqServer
    ensures r == JvmWithServerConfig <==> !config.hasMqServer && config.hasMqServerConfig
  {
    if config.hasMqServer then JvmWithServer
    else if config.hasMqServerConfig then JvmWithServerConfig
    else JvmDefault
  }

  /** `[`…`]` taken off when both are there. */
  function Unbracketed(t: string): (r: string)
    ensures StartsWith(t, "[") && EndsWith(t, "]") && |t| >= 2 ==> t == "[" + r + "]"
    ensures !(StartsWith(t, "[") && EndsWith(t, "]") && |t| >= 2) ==> r == t
  {
    if StartsWith(t, "[") && EndsWith(t, "]") && |t| >= 2 then
      assert t[..1] == "[" && t[|t| - 1..] == "]";
      t[1..|t| - 1]
    else t
  }

  /** `ZbusBroker(BrokerConfig)` as written: HA only when the whole trimmed address is one char
      of the class. */
  function Classify(config: Config): (r: Support)
    ensures r.IsJvm() <==> SelectsJvm(config)
    ensures !SelectsJvm(config) ==>
      var t := JavaTrim(config.brokerAddress.value);
      && (r.HaBroker? <==> |t| == 1 && IsHaChar(t[0]))
      && (r.HaBroker? ==> r.address == t)
      && (r.SingleBroker? ==> r.address == t)
  {
    if SelectsJvm(config) then Jvm(config)
    else
      var t := JavaTrim(config.brokerAddress.value);
      if |t| == 1 && IsHaChar(t[0]) then HaBroker(Unbracketed(t))
      else SingleBroker(t)
  }

  /** A trimmed address of two or more chars is never HA, whatever it lists. */
  lemma ListIsSingle(address: string)
    requires |JavaTrim(address)| >= 2 && !EqualsIgnoreCase("jvm", address)
    ensures Classify(Config(Some(address), false, false)) == SingleBroker(JavaTrim(address))
  {
  }

  /** The tracker list `[a;b]` from the class comment ends up as a single server named
      `[a;b]`, brackets and all. */
  lemma BracketedListIsSingle(a: string, b: string)
    requires JavaTrim("[" + a + ";" + b + "]") == "[" + a + ";" + b + "]"
    ensures Classify(Config(Some("[" + a + ";" + b + "]"), false, false)) ==
      SingleBroker("[" + a + ";" + b + "]")
  {
    var s := "[" + a + ";" + b + "]";
    assert |s| >= 3;
    assert ToLower("jvm") != ToLower(s);
  }

  /** The classification the class comment describes: HA when any char of the class occurs,
      with the brackets taken off. */
  function ClassifyIntended(config: Config): (r: Support)
    ensures r.IsJvm() <==> SelectsJvm(config)
    ensures !SelectsJvm(config) ==>
      var t := JavaTrim(config.brokerAddress.value);
      && (r.HaBroker? <==> HasHaChar(t))
      && (r.HaBroker? && StartsWith(t, "[") && EndsWith(t, "]") && |t| >= 2 ==> t == "[" + r.address + "]")
      && (r.SingleBroker? ==> r.address == t)
  {
    if SelectsJvm(config) then Jvm(config)
    else
      var t := JavaTrim(config.brokerAddress.value);
      if HasHaChar(t) then HaBroker(Unbracketed(t))
      else SingleBroker(t)
  }

  /** The intended classification makes `[a;b]` an HA broker over `a;b`. */
  lemma BracketedListIsHa(a: string, b: string)
    requires JavaTrim("[" + a + ";" + b + "]") == "[" + a + ";" + b + "]"
    ensures ClassifyIntended(Config(Some("[" + a + ";" + b + "]"), false, false)) == HaBroker(a + ";" + b)
  {
    var s := "[" + a + ";" + b + "]";
    assert |s| >= 3 && IsHaChar(s[0]);
    assert ToLower("jvm") != ToLower(s);
    assert s[..1] == "[" && s[|s| - 1..] == "]";
    assert s[1..|s| - 1] == a + ";" + b;
  }

  /** Both classifications agree on every address without a char of the class, and on the
      one-char addresses the code as written does accept. */
  lemma IntendedAgrees(config: Config)
    requires !SelectsJvm(config)
    requires var t := JavaTrim(config.brokerAddress.value);
      (forall i :: 0 <= i < |t| ==> !IsHaChar(t[i])) || |t| == 1
    ensures ClassifyIntended(config) == Classify(config)
  {
    var t := JavaTrim(config.brokerAddress.value);
    if |t| == 1 && IsHaChar(t[0]) {
      assert Unbracketed(t) == t;
    }
  }
}
