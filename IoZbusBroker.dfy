/**
  * The constructor of `io.zbus.mq.ZbusBroker` (src/main/java/io/zbus/mq/ZbusBroker.java):
  * it classifies the configured broker address as a tracker list (HA, served by a
  * `TrackBroker`) or a single server (a `SingleBroker`), and stores the cleaned address back
  * into the config.
  */
module IoZbusBroker {
  import opened Wrappers
  import opened Text

  /** The broker the constructor delegates to, with the address it stored into the config. */
  datatype Support = TrackBroker(address: string) | SingleBroker(address: string)

  /** A null address fails on `trim` with a `NullPointerException`; an opening `[` without a
      closing `]` is an `IllegalArgumentException` with this message. */
  datatype Failure = NullAddress | InvalidAddress(message: string)

  /** The chars that separate the addresses of a tracker list. */
  predicate IsListSeparator(c: char) { c == ',' || c == ' ' || c == ';' }

  predicate HasListSeparator(s: string)
  {
    exists i :: 0 <= i < |s| && IsListSeparator(s[i])
  }

  /** The address with its enclosing brackets taken off: `s` is `[` + address + `]`. */
  predicate Bracketed(s: string, address: string)
  {
    s == "[" + address + "]"
  }

  /** `ZbusBroker(BrokerConfig)`: trim; strip `[`…`]`, which makes it HA, and reject an
      unclosed `[`; any list separator left makes it HA too. */
  function Classify(brokerAddress: Option<string>): (r: Result<Support, Failure>)
    ensures brokerAddress.None? ==> r == Err(NullAddress)
    ensures brokerAddress.Some? ==>
      var t := JavaTrim(brokerAddress.value);
      && (r.Err? <==> StartsWith(t, "[") && !EndsWith(t, "]"))
      && (r.Err? ==> r.error == InvalidAddress(t + " broker address invalid"))
      && (r.Ok? && StartsWith(t, "[") ==> Bracketed(t, r.value.address))
      && (r.Ok? && !StartsWith(t, "[") ==> r.value.address == t)
      && (r.Ok? ==> (r.value.TrackBroker? <==> StartsWith(t, "[") || HasListSeparator(r.value.address)))
  {
    match brokerAddress
    case None => Err(NullAddress)
    case Some(a) =>
      var t := JavaTrim(a);
      if StartsWith(t, "[") then
        if EndsWith(t, "]") then
          assert t[..1][0] == '[' && t[|t| - 1..][0] == ']';
          var inner := t[1..|t| - 1];
          assert t == "[" + inner + "]" by {
            assert t[..1] == "[" && t[|t| - 1..] == "]";
          }
          Ok(TrackBroker(inner))
        else Err(InvalidAddress(t + " broker address invalid"))
      else if HasListSeparator(t) then Ok(TrackBroker(t))
      else Ok(SingleBroker(t))
  }

  /** The address is trimmed before it is classified: trimming it first changes nothing. */
  lemma ClassifyOfTrimmed(a: string)
    ensures Classify(Some(JavaTrim(a))) == Classify(Some(a))
  {
    TrimIdempotent(a, JavaBlanks);
  }

  /** A bracketed list comes back as a tracker list of what is inside the brackets. */
  lemma ClassifyOfBracketed(inner: string)
    requires JavaTrim("[" + inner + "]") == "[" + inner + "]"
    ensures Classify(Some("[" + inner + "]")) == Ok(TrackBroker(inner))
  {
    var t := "[" + inner + "]";
    assert t[..1] == "[" && t[|t| - 1..] == "]";
    assert t[1..|t| - 1] == inner;
  }

  /** Two addresses joined by `;` make a tracker list of both. */
  lemma ClassifyOfList(a: string, b: string)
    requires JavaTrim(a + ";" + b) == a + ";" + b && !StartsWith(a + ";" + b, "[")
    ensures Classify(Some(a + ";" + b)) == Ok(TrackBroker(a + ";" + b))
  {
    var t := a + ";" + b;
    assert IsListSeparator(t[|a|]);
  }

  /** A trimmed address with no bracket in front and no separator is a single server. */
  lemma ClassifyOfSingle(a: string)
    requires JavaTrim(a) == a && !StartsWith(a, "[")
    requires forall i :: 0 <= i < |a| ==> !IsListSeparator(a[i])
    ensures Classify(Some(a)) == Ok(SingleBroker(a))
  {
  }
}
