/** The byte layout of encrypted files: `makeencryptfile` and
    `makedecryptfile`, GXPass.hpp:530-632, without the file access. */
module EncryptedFile {
  import opened Common
  import opened Text
  import opened KeyText
  import opened SafeText
  import opened Unranking
  import opened Cipher

  const HEADER_LEN := 16
  const PREFIX_LEN := 19

  function PassHash(pass: Text8, version: int): (r: Text8)
    ensures |r| == if Known(version) then 256 else 0
  {
    FullsafeText(pass, version, 256, 256, AllChars())
  }

  /** Where in the grown texts the hash of a password and the header begin. */
  lemma HashesAre(text: Text8, version: int, k: nat)
    requires Known(version)
    ensures
      var skipped := (n: nat) => if version == 1 then 0 else n;
      var original := Original(text, version, AllChars());
      && (k < 256 ==> PassHash(text, version)[k] == ReadAt(original, k + skipped(256), version, AllChars()))
      && (k < 16 ==> Header(text, version)[k] == ReadAt(original, k + skipped(8), version, AllChars()))
  {
    hide ReadAt, Original, FullsafeText, AllChars;
    if k < 256 {
      PassCharacter(text, version, 256, 256, AllChars(), k);
    }
    if k < 16 {
      PassCharacter(text, version, 16, 8, AllChars(), k);
    }
  }

  /** What the key of a file is hashed from. */
  function FileOrigin(pass: Text8, version: int, crossDevices: bool, device: Text8, dataHash: Text8): Text8 {
    OriginText(device, crossDevices, PassHash(pass, version), dataHash)
  }

  /** The key a file is encrypted under, from what its header stores. */
  function FileKey(pass: Text8, version: int, crossDevices: bool, device: Text8, dataHash: Text8, charset: Text8): nat
    requires charset != []
  {
    KeyNumber(FinalPass(FileOrigin(pass, version, crossDevices, device, dataHash), version, charset))
  }

  /** The 16 characters of the magic header, from a title text. */
  function Header(title: Text8, version: int): (r: Text8)
    ensures |r| == if Known(version) then HEADER_LEN else 0
  {
    FullsafeText(title, version, HEADER_LEN, 8, AllChars())
  }

  function Layout(header: Text8, version: int, crossDevices: bool, dataHash: Text8, payload: Text8): Text8 {
    header + [Narrow(version), if crossDevices then 1 else 0, Narrow(|dataHash|)] + dataHash + payload
  }

  /** GXPass.hpp:551-568. */
  function Pack(data: Text8, pass: Text8, version: int, crossDevices: bool, device: Text8, charset: Text8, title: Text8)
      : Text8
    requires charset != []
  {
    var dataHash := DataHash(data, version, charset);
    var key := FileKey(pass, version, crossDevices, device, dataHash, charset);
    Layout(Header(title, version), version, crossDevices, dataHash, EncipherText(key, data))
  }

  /** What reading a file takes for granted: the fixed fields are there, and the
      stored hash length is not negative and fits. */
  predicate Readable(file: Text8) {
    |file| >= PREFIX_LEN && 0 <= file[18] && PREFIX_LEN + file[18] <= |file|
  }

  /** How reading a file ends: a wrong header or data hash rejects it, and a
      payload under an unknown version is never done with. */
  datatype Unpacked = Recovered(data: Text8) | Rejected | NeverEnds

  /** GXPass.hpp:586-629. */
  function Unpack(file: Text8, pass: Text8, device: Text8, charset: Text8, title: Text8): Unpacked
    requires Readable(file) && charset != []
  {
    var version, crossDevices, hashEnd := file[16], file[17] != 0, PREFIX_LEN + file[18];
    if file[..HEADER_LEN] != Header(title, LATEST) then Rejected
    else if !Known(version) && hashEnd < |file| then NeverEnds
    else
      var dataHash := file[PREFIX_LEN..hashEnd];
      var key := FileKey(pass, version, crossDevices, device, dataHash, charset);
      var data := DecipherText(key, file[hashEnd..]);
      if DataHash(data, version, charset) != dataHash then Rejected else Recovered(data)
  }

  lemma LayoutFields(header: Text8, version: int, crossDevices: bool, dataHash: Text8, payload: Text8)
    requires |header| == HEADER_LEN && |dataHash| == DATA_HASH_LEN && Known(version)
    ensures
      var file := Layout(header, version, crossDevices, dataHash, payload);
      && Readable(file) && file[..HEADER_LEN] == header
      && file[16] == version && (file[17] != 0 <==> crossDevices) && file[18] == DATA_HASH_LEN
      && file[PREFIX_LEN..PREFIX_LEN + DATA_HASH_LEN] == dataHash
      && file[PREFIX_LEN + DATA_HASH_LEN..] == payload
  {
  }

  /** Unpacking a packed file gives the data back, the empty one included, if
      and only if the header of the version it was packed with is the one the
      reader expects. */
  lemma FileRoundTrip(data: Text8, pass: Text8, version: int, crossDevices: bool, device: Text8, charset: Text8,
                      title: Text8)
    requires Known(version) && charset != []
    ensures Readable(Pack(data, pass, version, crossDevices, device, charset, title))
    ensures
      var file := Pack(data, pass, version, crossDevices, device, charset, title);
      Unpack(file, pass, device, charset, title) == Recovered(data)
      <==> Header(title, version) == Header(title, LATEST)
  {
    hide FileKey, DataHash, FullsafeText, Layout, Header;
    var dataHash := DataHash(data, version, charset);
    var key := FileKey(pass, version, crossDevices, device, dataHash, charset);
    LayoutFields(Header(title, version), version, crossDevices, dataHash, EncipherText(key, data));
    DecipherTextInverts(key, data);
  }

  /** With any password, on any device: what unpacking makes of a packed file. The
      data comes back if and only if the two keys encipher it alike. */
  lemma WrongKeyIff(data: Text8, p: Text8, q: Text8, version: int, crossDevices: bool, d1: Text8, d2: Text8,
                    charset: Text8, title: Text8)
    requires Known(version) && charset != []
    ensures Header(title, version) == Header(title, LATEST) ==>
      var hash := DataHash(data, version, charset);
      var k := FileKey(p, version, crossDevices, d1, hash, charset);
      var l := FileKey(q, version, crossDevices, d2, hash, charset);
      var file := Pack(data, p, version, crossDevices, d1, charset, title);
      var read := DecipherText(l, EncipherText(k, data));
      && Readable(file)
      && Unpack(file, q, d2, charset, title)
        == (if DataHash(read, version, charset) == hash then Recovered(read) else Rejected)
      && (Unpack(file, q, d2, charset, title) == Recovered(data) <==> EncipherText(k, data) == EncipherText(l, data))
  {
    hide FileKey, DataHash, FullsafeText, Layout, Header;
    var hash := DataHash(data, version, charset);
    var k := FileKey(p, version, crossDevices, d1, hash, charset);
    var l := FileKey(q, version, crossDevices, d2, hash, charset);
    LayoutFields(Header(title, version), version, crossDevices, hash, EncipherText(k, data));
    DecipherTextInverts(l, data);
    DecipherTextInverts(l, EncipherText(k, data));
  }

  /** The texts the two keys are hashed from are equal if and only if the hashes of
      the passwords and of the data are and, for a file tied to one, the devices. */
  lemma FileOriginIff(p: Text8, q: Text8, version: int, crossDevices: bool, d1: Text8, d2: Text8, h1: Text8, h2: Text8)
    requires |h1| == |h2|
    ensures FileOrigin(p, version, crossDevices, d1, h1) == FileOrigin(q, version, crossDevices, d2, h2)
      <==> PassHash(p, version) == PassHash(q, version) && h1 == h2 && (crossDevices ==> d1 == d2)
  {
    hide PassHash, OriginText;
    OriginDetermines(d1, crossDevices, PassHash(p, version), h1, d2, crossDevices, PassHash(q, version), h2);
  }

  /** So it does for the current version, under either of its numbers. */
  lemma CurrentVersionRoundTrip(data: Text8, pass: Text8, version: int, crossDevices: bool, device: Text8,
                                charset: Text8, title: Text8)
    requires (version == LATEST || version == VERSION_2) && charset != []
    ensures Readable(Pack(data, pass, version, crossDevices, device, charset, title))
    ensures
      var file := Pack(data, pass, version, crossDevices, device, charset, title);
      Unpack(file, pass, device, charset, title) == Recovered(data)
  {
    hide Pack, Unpack;
    FileRoundTrip(data, pass, version, crossDevices, device, charset, title);
    if version == VERSION_2 {
      LatestIsTwo(title, HEADER_LEN, 8, AllChars());
    }
  }

  method MakeEncryptFile(data: Text8, pass: Text8, version: int, crossDevices: bool, device: Text8, charset: Text8,
                         title: Text8) returns (file: Option<Text8>)
    requires charset != []
    ensures file == if Known(version) || data == []
      then Some(Pack(data, pass, version, crossDevices, device, charset, title)) else None
  {
    var passHash := Pass(pass, version, 256, 256, AllChars());
    var encrypted := Encrypt(data, passHash, version, crossDevices, device, charset);
    if encrypted.None? {
      return None;
    }
    var header := Pass(title, version, HEADER_LEN, 8, AllChars());
    var dataHash := Pass(data, version, DATA_HASH_LEN, 16, charset);
    file := Some(Layout(header, version, crossDevices, dataHash, encrypted.value));
  }

  method MakeDecryptFile(file: Text8, pass: Text8, device: Text8, charset: Text8, title: Text8)
      returns (r: Unpacked)
    requires Readable(file) && charset != []
    ensures r == Unpack(file, pass, device, charset, title)
  {
    hide FullsafeText;
    var header := Pass(title, LATEST, HEADER_LEN, 8, AllChars());
    for i := 0 to HEADER_LEN
      invariant forall k :: 0 <= k < i ==> file[k] == header[k]
    {
      if file[i] != header[i] {
        assert file[..HEADER_LEN][i] != header[i];
        return Rejected;
      }
    }
    assert file[..HEADER_LEN] == header;
    var version, crossDevices, hashEnd := file[16], file[17] != 0, PREFIX_LEN + file[18];
    var dataHash := file[PREFIX_LEN..hashEnd];
    var passHash := Pass(pass, version, 256, 256, AllChars());
    var origin := OriginText(device, crossDevices, passHash, dataHash);
    var finalPass := Pass(origin, version, PASS_LEN, 256, charset);
    var data := Decrypt(file[hashEnd..], finalPass, version);
    if data.None? {
      return NeverEnds;
    }
    var computed := Pass(data.value, version, DATA_HASH_LEN, 16, charset);
    if computed != dataHash {
      return Rejected;
    }
    return Recovered(data.value);
  }
}
