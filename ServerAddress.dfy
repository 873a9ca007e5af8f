/**
  * `io.zbus.transport.ServerAddress` (src/main/java/io/zbus/transport/ServerAddress.java): the
  * address of a server, whether to talk to it over SSL, and an optional embedded `Server`.
  * Equality, hashing and printing look at the address and the SSL flag only.
  */
module ServerAddress {
  import opened Wrappers
  import opened Text

  /** The embedded `Server`, by identity; it plays no part in equality. */
  datatype ServerRef = ServerRef(id: nat)

  datatype Address = Address(address: Option<string>, sslEnabled: bool, server: Option<ServerRef>)

  /** `ServerAddress()`: every field at its default. */
  function Empty(): (r: Address)
    ensures r.address.None? && !r.sslEnabled && r.server.None?
  {
    Address(None, false, None)
  }

  /** `ServerAddress(String)`: SSL stays off. */
  function Of(address: Option<string>): (r: Address)
    ensures r.address == address && !r.sslEnabled && r.server.None?
  {
    Address(address, false, None)
  }

  /** `ServerAddress(String, boolean)`. */
  function OfSsl(address: Option<string>, sslEnabled: bool): (r: Address)
    ensures r.address == address && r.sslEnabled == sslEnabled && r.server.None?
  {
    Address(address, sslEnabled, None)
  }

  /** Java's string conversion of a possibly null `String` in a concatenation. */
  function Show(s: Option<string>): string
  {
    if s.None? then "null" else s.value
  }

  /** `toString`: the address, behind `[SSL]` when SSL is on; a null address without SSL
      prints as null. */
  function ToString(a: Address): (r: Option<string>)
    ensures a.sslEnabled ==> r.Some? && |r.value| >= 5 && r.value[..5] == "[SSL]" && r.value[5..] == Show(a.address)
    ensures !a.sslEnabled ==> r == a.address
  {
    if a.sslEnabled then
      var r := "[SSL]" + Show(a.address);
      assert r[..5] == "[SSL]" && r[5..] == Show(a.address);
      Some(r)
    else a.address
  }

  /** `String.hashCode`: `s[0]*31^(n-1) + … + s[n-1]` in 32-bit arithmetic, one char at a
      time. */
  function StringHash(s: string): (h: int)
    ensures IsInt32(h)
    ensures s == [] ==> h == 0
  {
    if s == [] then 0 else Wrap32(31 * StringHash(s[..|s| - 1]) + s[|s| - 1] as int)
  }

  /** Appending a char multiplies the hash so far by 31 and adds the char's code. */
  lemma StringHashAppend(s: string, c: char)
    ensures StringHash(s + [c]) == Wrap32(31 * StringHash(s) + c as int)
  {
    assert (s + [c])[..|s|] == s;
  }

  /** `"ab".hashCode()` is `97 * 31 + 98`. */
  lemma StringHashExample()
    ensures StringHash("ab") == 3105
  {
    StringHashAppend("", 'a');
    StringHashAppend("a", 'b');
  }

  /** `x` and `y` are the same Java `int` once wrapped. */
  predicate Congruent(x: int, y: int) { (x - y) % 0x1_0000_0000 == 0 }

  lemma CongruentScaled(x: int, y: int, k: int, c: int)
    requires Congruent(x, y)
    ensures Congruent(k * x + c, k * y + c)
  {
    var q := (x - y) / 0x1_0000_0000;
    assert x - y == 0x1_0000_0000 * q;
    assert (k * x + c) - (k * y + c) == 0x1_0000_0000 * (k * q);
  }

  lemma CongruentTrans(x: int, y: int, z: int)
    requires Congruent(x, y) && Congruent(y, z)
    ensures Congruent(x, z)
  {
  }

  /** `hashCode`: `31 * (31 * 1 + h(address)) + (ssl ? 1231 : 1237)`, each step in `int`
      arithmetic, with 0 for a null address. */
  function HashCode(a: Address): (r: int)
    ensures IsInt32(r)
    ensures var h := if a.address.None? then 0 else StringHash(a.address.value);
      Congruent(r, 31 * (31 + h) + (if a.sslEnabled then 1231 else 1237))
  {
    var h := if a.address.None? then 0 else StringHash(a.address.value);
    var b := if a.sslEnabled then 1231 else 1237;
    var first := Wrap32(31 * 1 + h);
    var r := Wrap32(31 * first + b);
    CongruentScaled(first, 31 + h, 31, b);
    CongruentTrans(r, 31 * first + b, 31 * (31 + h) + b);
    r
  }

  /** What `equals` is called with: null, an object of another class, or a `ServerAddress`. */
  datatype Obj = Null | OtherClass | Same(value: Address)

  /** `equals`: same class, same address (null equals only null) and same SSL flag. */
  function Equals(a: Address, obj: Obj): (r: bool)
    ensures r <==> obj.Same? && obj.value.address == a.address && obj.value.sslEnabled == a.sslEnabled
  {
    if obj.Null? then false
    else if obj.OtherClass? then false
    else
      var other := obj.value;
      if a.address.None? && other.address.Some? then false
      else if a.address.Some? && (other.address.None? || a.address.value != other.address.value) then false
      else if a.sslEnabled != other.sslEnabled then false
      else true
  }

  lemma EqualsReflexive(a: Address)
    ensures Equals(a, Same(a))
  {
  }

  lemma EqualsSymmetric(a: Address, b: Address)
    ensures Equals(a, Same(b)) <==> Equals(b, Same(a))
  {
  }

  lemma EqualsTransitive(a: Address, b: Address, c: Address)
    requires Equals(a, Same(b)) && Equals(b, Same(c))
    ensures Equals(a, Same(c))
  {
  }

  /** The embedded server does not matter to `equals`. */
  lemma EqualsIgnoresServer(a: Address, s: Option<ServerRef>)
    ensures Equals(a, Same(a.(server := s)))
  {
  }

  /** Equal addresses hash alike and print alike. */
  lemma EqualsAgreesWithHashCode(a: Address, b: Address)
    requires Equals(a, Same(b))
    ensures HashCode(a) == HashCode(b)
    ensures ToString(a) == ToString(b)
  {
  }

  /** The SSL flag always changes the hash code: 1231 and 1237 differ by 6, which is not a
      multiple of 2^32. */
  lemma {:induction false} HashCodeSeesSsl(a: Address)
    ensures HashCode(a.(sslEnabled := true)) != HashCode(a.(sslEnabled := false))
  {
    var h := if a.address.None? then 0 else StringHash(a.address.value);
    var t := HashCode(a.(sslEnabled := true));
    var f := HashCode(a.(sslEnabled := false));
    var q := (t - (31 * (31 + h) + 1231)) / 0x1_0000_0000;
    var p := (f - (31 * (31 + h) + 1237)) / 0x1_0000_0000;
    assert t - f + 6 == 0x1_0000_0000 * (q - p);
  }
}
