/**
 The associated data that binds a sealed secret to its entry: envelope version,
 vault salt, name and credential type, each variable field behind a four-byte
 big-endian length.
 */
module EntryAad {
  import opened Common

  const ENTRY_ENVELOPE_VERSION: byte := 1
  const LEGACY_ENVELOPE_VERSION: byte := 0

  /** A length as four big-endian bytes; a longer field is an error, never clamped. */
  function LenPrefix(n: nat): Option<seq<byte>> {
    if n > U32_MAX then None
    else Some([n / 0x100_0000, n / 0x1_0000 % 256, n / 256 % 256, n % 256])
  }

  function Field(x: seq<byte>): Option<seq<byte>> {
    match LenPrefix(|x|)
    case None => None
    case Some(p) => Some(p + x)
  }

  /** The associated data of an entry, or none if a field is too long to prefix. */
  function BindingOf(salt: seq<byte>, name: seq<byte>, credentialType: seq<byte>, version: byte): Option<seq<byte>> {
    match (Field(salt), Field(name), Field(credentialType))
    case (Some(s), Some(n), Some(t)) => Some([version] + s + n + t)
    case _ => None
  }

  /** The tag of the signing-key seal: version one, then "kryphos/vault/signing-key". */
  const SIGNING_KEY_AAD: seq<byte> :=
    [1, 107, 114, 121, 112, 104, 111, 115, 47, 118, 97, 117, 108, 116, 47,
     115, 105, 103, 110, 105, 110, 103, 45, 107, 101, 121]

  function Decoded(p: seq<byte>): nat
    requires |p| >= 4
  {
    var a: nat, b: nat, c: nat, d: nat := p[0], p[1], p[2], p[3];
    a * 0x100_0000 + b * 0x1_0000 + c * 256 + d
  }

  /** A prefix gives back the length it encodes. */
  lemma PrefixRoundTrip(n: nat)
    requires n <= U32_MAX
    ensures LenPrefix(n).Some? && |LenPrefix(n).value| == 4 && Decoded(LenPrefix(n).value) == n
  {
    var high, middle := n / 0x1_0000, n / 256;
    assert high / 256 == n / 0x100_0000 && middle / 256 == high;
    assert n == middle * 256 + n % 256;
    assert middle == high * 256 + middle % 256;
    assert high == high / 256 * 256 + high % 256;
  }

  /** A field can be told from what follows it. */
  lemma FieldSplits(x: seq<byte>, y: seq<byte>, r: seq<byte>, r': seq<byte>)
    requires Field(x).Some? && Field(y).Some? && Field(x).value + r == Field(y).value + r'
    ensures x == y && r == r'
  {
    PrefixRoundTrip(|x|);
    PrefixRoundTrip(|y|);
    hide LenPrefix;
    var px, py := LenPrefix(|x|).value, LenPrefix(|y|).value;
    var s := px + x + r;
    assert s == py + y + r';
    assert s[..4] == px && s[..4] == py;
    assert |x| == |y|;
    assert s[4..4 + |x|] == x && s[4..4 + |x|] == y;
    assert s[4 + |x|..] == r && s[4 + |x|..] == r';
  }

  /** The binding is injective: equal associated data means the same salt, name, type and version. */
  lemma BindingIsInjective(
    salt: seq<byte>, name: seq<byte>, ty: seq<byte>, version: byte,
    salt': seq<byte>, name': seq<byte>, ty': seq<byte>, version': byte)
    requires BindingOf(salt, name, ty, version).Some?
    requires BindingOf(salt, name, ty, version) == BindingOf(salt', name', ty', version')
    ensures salt == salt' && name == name' && ty == ty' && version == version'
  {
    var s, n, t := Field(salt).value, Field(name).value, Field(ty).value;
    var s', n', t' := Field(salt').value, Field(name').value, Field(ty').value;
    Peel(version, s, n, t, version', s', n', t');
    hide Field;
    FieldSplits(salt, salt', n + t, n' + t');
    FieldSplits(name, name', t, t');
    assert t + [] == t && t' + [] == t';
    FieldSplits(ty, ty', [], []);
  }

  lemma Peel(v: byte, s: seq<byte>, n: seq<byte>, t: seq<byte>, v': byte, s': seq<byte>, n': seq<byte>, t': seq<byte>)
    requires [v] + s + n + t == [v'] + s' + n' + t'
    ensures v == v' && s + (n + t) == s' + (n' + t')
  {
    var a := [v] + s + n + t;
    assert a[0] == v && a[0] == v';
    assert a[1..] == s + (n + t);
    assert a[1..] == s' + (n' + t');
  }

  /** It is never the empty associated data, nor that of the signing-key seal. */
  lemma BindingIsApart(salt: seq<byte>, name: seq<byte>, ty: seq<byte>, version: byte)
    requires BindingOf(salt, name, ty, version).Some?
    ensures BindingOf(salt, name, ty, version).value != []
    ensures BindingOf(salt, name, ty, version).value != SIGNING_KEY_AAD
  {
    var a := BindingOf(salt, name, ty, version).value;
    assert |a| >= 5 + |salt| && a[1] == LenPrefix(|salt|).value[0];
    assert |SIGNING_KEY_AAD| == 26 && SIGNING_KEY_AAD[1] == 107;
    if |a| == 26 {
      assert a[1] == 0;
    }
  }

  /** A binding exists exactly when salt, name and type each fit a four-byte length. */
  lemma BindingExistsIff(salt: seq<byte>, name: seq<byte>, ty: seq<byte>, version: byte)
    ensures BindingOf(salt, name, ty, version).Some?
            <==> |salt| <= U32_MAX && |name| <= U32_MAX && |ty| <= U32_MAX
  {
  }

  /** The bytes bound: the version, then salt, name and type in this order, each behind its own length. */
  lemma BindingLayout(salt: seq<byte>, name: seq<byte>, ty: seq<byte>, version: byte)
    requires BindingOf(salt, name, ty, version).Some?
    ensures var a, i, j := BindingOf(salt, name, ty, version).value, 5 + |salt|, 9 + |salt| + |name|;
            && |a| == 13 + |salt| + |name| + |ty| && a[0] == version
            && Some(a[1..5]) == LenPrefix(|salt|) && a[5..i] == salt
            && Some(a[i..i + 4]) == LenPrefix(|name|) && a[i + 4..j] == name
            && Some(a[j..j + 4]) == LenPrefix(|ty|) && a[j + 4..] == ty
  {
    PrefixRoundTrip(|salt|);
    PrefixRoundTrip(|name|);
    PrefixRoundTrip(|ty|);
    var s, n, t := LenPrefix(|salt|).value, LenPrefix(|name|).value, LenPrefix(|ty|).value;
    hide LenPrefix, Decoded;
    var a := [version] + (s + salt) + (n + name) + (t + ty);
    var i, j := 5 + |salt|, 9 + |salt| + |name|;
    assert a[1..5] == s && a[5..i] == salt;
    assert a[i..i + 4] == n && a[i + 4..j] == name;
    assert a[j..j + 4] == t && a[j + 4..] == ty;
  }
}
