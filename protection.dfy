/**
 The protection filter of the residual resource-group cleaner: which resource
 groups must never be deleted, whatever the registry says.

 The MD5 digest itself is a foreign cryptographic primitive; every member that
 needs it takes it as a parameter `md5`, so every property below holds for any
 digest function.  The hexadecimal encoding of the digest is modelled exactly.
 */
module Protection {

  type Byte = b: int | 0 <= b < 256

  /** A 128-bit MD5 digest: sixteen bytes. */
  type Digest = d: seq<Byte> | |d| == 16
    witness [0, 0, 0, 0, 0, 0, 0, 0, 0, 0, 0, 0, 0, 0, 0, 0]

  type Tags = map<string, string>

  /** The fields of a listed resource group. */
  datatype ResourceGroup = ResourceGroup(
    id: string,
    name: string,
    kind: string,
    location: string,
    tags: Tags)

  /** The name of the group whose tags hold the cleaner's registry. */
  const RecorderRgName: string := "residualrgrecorder"

  /** Groups managed by the Kubernetes service carry this prefix. */
  const SystemPrefix: string := "MC_"

  /** The tag key that opts a group out of deletion; its value is irrelevant. */
  const DoNotDeleteKey: string := "do_not_delete"

  /** Lower-case hex MD5 digests of the names of groups that must be kept. */
  const ProtectedNameHashes: set<string> := {
    "7e8e0b947214e31d9f02a94090487c0d",
    "cdb5195b6e59c8d4743d60fe5d1ddd54",
    "f054bc18556dfd9d4cd5c6f92a3b96db",
    "e35386fdf3abd880dd3b57c7bcb2340f",
    "62e5e9c30b987e3d11dbeb7a1b07ff70",
    "6e0030125d834f2263ff441f6b8d3ff7"
  }

  predicate HasPrefix(s: string, prefix: string)
  {
    |prefix| <= |s| && s[..|prefix|] == prefix
  }

  // ---------------------------------------------------------------------------
  // Hexadecimal encoding (lower case, high nibble first)
  // ---------------------------------------------------------------------------

  predicate IsLowerHexDigit(c: char)
  {
    '0' <= c <= '9' || 'a' <= c <= 'f'
  }

  predicate IsLowerHex(s: string)
  {
    forall i :: 0 <= i < |s| ==> IsLowerHexDigit(s[i])
  }

  function HexDigit(n: int): (c: char)
    requires 0 <= n < 16
    ensures IsLowerHexDigit(c)
  {
    if n < 10 then ('0' as int + n) as char else ('a' as int + n - 10) as char
  }

  function DigitValue(c: char): (n: int)
    requires IsLowerHexDigit(c)
    ensures 0 <= n < 16
    ensures HexDigit(n) == c
  {
    if c <= '9' then c as int - '0' as int else c as int - 'a' as int + 10
  }

  lemma DigitValueOfHexDigit(n: int)
    requires 0 <= n < 16
    ensures DigitValue(HexDigit(n)) == n
  {
  }

  /** Two lower-case hex characters per byte, high nibble first. */
  function HexEncode(bytes: seq<Byte>): (s: string)
    ensures |s| == 2 * |bytes|
    ensures IsLowerHex(s)
    ensures forall i :: 0 <= i < |bytes| ==>
      s[2 * i] == HexDigit(bytes[i] / 16) && s[2 * i + 1] == HexDigit(bytes[i] % 16)
  {
    if bytes == [] then []
    else [HexDigit(bytes[0] / 16), HexDigit(bytes[0] % 16)] + HexEncode(bytes[1..])
  }

  /** The inverse of HexEncode on well-formed hex text. */
  function HexDecode(s: string): (bytes: seq<Byte>)
    requires |s| % 2 == 0 && IsLowerHex(s)
    ensures |bytes| == |s| / 2
  {
    if s == [] then []
    else [DigitValue(s[0]) * 16 + DigitValue(s[1])] + HexDecode(s[2..])
  }

  lemma {:induction false} DecodeEncode(bytes: seq<Byte>)
    ensures HexDecode(HexEncode(bytes)) == bytes
  {
    if bytes != [] {
      var b := bytes[0];
      var s := HexEncode(bytes);
      assert s[2..] == HexEncode(bytes[1..]);
      DigitValueOfHexDigit(b / 16);
      DigitValueOfHexDigit(b % 16);
      DecodeEncode(bytes[1..]);
    }
  }

  lemma {:induction false} EncodeDecode(s: string)
    requires |s| % 2 == 0 && IsLowerHex(s)
    ensures HexEncode(HexDecode(s)) == s
  {
    if s != [] {
      var bytes := HexDecode(s);
      var b := DigitValue(s[0]) * 16 + DigitValue(s[1]);
      assert bytes[0] == b && bytes[1..] == HexDecode(s[2..]);
      assert b / 16 == DigitValue(s[0]) && b % 16 == DigitValue(s[1]);
      EncodeDecode(s[2..]);
    }
  }

  lemma HexEncodeInjective(a: seq<Byte>, b: seq<Byte>)
    ensures HexEncode(a) == HexEncode(b) <==> a == b
  {
    if HexEncode(a) == HexEncode(b) {
      DecodeEncode(a);
      DecodeEncode(b);
    }
  }

  // ---------------------------------------------------------------------------
  // The protection predicate
  // ---------------------------------------------------------------------------

  /** The hex text of the name's digest. */
  function Md5Hash(text: string, md5: string -> Digest): (h: string)
    ensures |h| == 32 && IsLowerHex(h)
    ensures HexDecode(h) == md5(text)
  {
    DecodeEncode(md5(text));
    HexEncode(md5(text))
  }

  /** The four rules, tried in order; the first that fires protects the group. */
  predicate IsProtected(rg: ResourceGroup, md5: string -> Digest)
  {
    if HasPrefix(rg.name, SystemPrefix) then true
    else if rg.name == RecorderRgName then true
    else if Md5Hash(rg.name, md5) in ProtectedNameHashes then true
    else if DoNotDeleteKey in rg.tags then true
    else false
  }

  /** The digests that the six listed hex strings stand for. */
  ghost predicate IsProtectedDigest(d: Digest)
  {
    exists h :: h in ProtectedNameHashes && |h| == 32 && IsLowerHex(h) && HexDecode(h) == d
  }

  /** The hash rule protects exactly the names whose digest is one of the listed ones. */
  lemma HashRuleIsDigestMembership(name: string, md5: string -> Digest)
    ensures Md5Hash(name, md5) in ProtectedNameHashes <==> IsProtectedDigest(md5(name))
  {
    var d := md5(name);
    if IsProtectedDigest(d) {
      var h :| h in ProtectedNameHashes && |h| == 32 && IsLowerHex(h) && HexDecode(h) == d;
      EncodeDecode(h);
    }
  }

  /** A group is protected exactly when one of the four rules holds, the hash
      rule read as membership of the name's digest. */
  lemma IsProtectedIff(rg: ResourceGroup, md5: string -> Digest)
    ensures IsProtected(rg, md5) <==>
      || HasPrefix(rg.name, SystemPrefix)
      || rg.name == RecorderRgName
      || IsProtectedDigest(md5(rg.name))
      || DoNotDeleteKey in rg.tags
  {
    HashRuleIsDigestMembership(rg.name, md5);
  }

  lemma SystemPrefixProtected(rg: ResourceGroup, md5: string -> Digest)
    requires |rg.name| >= 3 && rg.name[..3] == "MC_"
    ensures IsProtected(rg, md5)
  {
  }

  lemma RecorderProtected(rg: ResourceGroup, md5: string -> Digest)
    requires rg.name == RecorderRgName
    ensures IsProtected(rg, md5)
  {
  }

  lemma ListedDigestProtected(rg: ResourceGroup, md5: string -> Digest, h: string)
    requires h in ProtectedNameHashes && |h| == 32 && IsLowerHex(h)
    requires md5(rg.name) == HexDecode(h)
    ensures IsProtected(rg, md5)
  {
    EncodeDecode(h);
  }

  lemma DoNotDeleteProtected(rg: ResourceGroup, md5: string -> Digest)
    requires DoNotDeleteKey in rg.tags
    ensures IsProtected(rg, md5)
  {
  }

  /** The filter looks only at the name and the tags. */
  lemma ProtectionReadsNameAndTags(a: ResourceGroup, b: ResourceGroup, md5: string -> Digest)
    requires a.name == b.name && a.tags == b.tags
    ensures IsProtected(a, md5) == IsProtected(b, md5)
  {
  }
}
