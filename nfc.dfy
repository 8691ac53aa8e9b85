/** The parts of the slave's NFC module that are its own logic
    (RF24-Slave/src/NfcModule.cpp): the text a read tag's UID is reported
    as, and the URL and UID the emulator presents. The PN532 and NDEF
    library calls are inputs. */
module Nfc {
  import opened Text
  import opened SlaveConfig

  /** The result of one readPassiveTargetID call: the UID bytes, or None
      when no tag answered. */
  type TagRead = Option<seq<Byte>>

  function UpperDigit(d: nat): (c: char)
    requires d < 16
  {
    if d < 10 then DigitChar(d) else (d - 10 + 'A' as int) as char
  }

  function LowerDigit(d: nat): (c: char)
    requires d < 16
  {
    if d < 10 then DigitChar(d) else (d - 10 + 'a' as int) as char
  }

  /** Two upper-case hex digits per byte, high nibble first. */
  function HexPairs(uid: seq<Byte>): (s: string)
    ensures |s| == 2 * |uid|
    ensures forall i :: 0 <= i < |uid| ==> s[2 * i] == UpperDigit(uid[i] / 16) && s[2 * i + 1] == UpperDigit(uid[i] % 16)
  {
    if uid == [] then []
    else
      var rest := HexPairs(uid[1..]);
      var s := [UpperDigit(uid[0] / 16), UpperDigit(uid[0] % 16)] + rest;
      assert forall i :: 1 <= i < |uid| ==> s[2 * i] == rest[2 * (i - 1)] && s[2 * i + 1] == rest[2 * (i - 1) + 1];
      s
  }

  /** The reply text for a tag: "UID:" and the bytes in hex. */
  function UidString(uid: seq<Byte>): string {
    "UID:" + HexPairs(uid)
  }

  /** String(b, HEX): lower-case hex without leading zeros. */
  function LowerHex(b: Byte): string {
    if b < 16 then [LowerDigit(b)] else [LowerDigit(b / 16), LowerDigit(b % 16)]
  }

  /** What the loop of runReaderTask appends for one byte: a '0' first when
      the byte is below 0x10. */
  function PaddedHex(b: Byte): (s: string)
    ensures |s| == 2
  {
    if b < 0x10 then "0" + LowerHex(b) else LowerHex(b)
  }

  /** upper-casing the padded lower-case digits gives the two upper-case
      nibbles: toUpperCase turns the loop's text into HexPairs. */
  lemma PaddedHexUpper(b: Byte)
    ensures ToUpper(PaddedHex(b)) == [UpperDigit(b / 16), UpperDigit(b % 16)]
  {
    var p := PaddedHex(b);
    if b < 0x10 {
      assert p == ['0', LowerDigit(b)];
      assert b / 16 == 0 && b % 16 == b;
    }
    assert forall d: nat :: d < 16 ==> ToUpperChar(LowerDigit(d)) == UpperDigit(d);
  }

  lemma ToUpperAppend(a: string, b: string)
    ensures ToUpper(a + b) == ToUpper(a) + ToUpper(b)
  {
  }

  /** The bytes of well-formed UID text: four characters "UID:" and then
      two upper-case hex digits per byte. */
  function ParseUid(s: string): Option<seq<Byte>> {
    if |s| < 4 || s[..4] != "UID:" then None else ParsePairs(s[4..])
  }

  function HexValue(c: char): Option<nat> {
    if '0' <= c <= '9' then Some(c as int - '0' as int)
    else if 'A' <= c <= 'F' then Some(c as int - 'A' as int + 10)
    else None
  }

  function ParsePairs(s: string): Option<seq<Byte>>
    decreases |s|
  {
    if s == [] then Some([])
    else if |s| == 1 then None
    else match (HexValue(s[0]), HexValue(s[1]), ParsePairs(s[2..]))
      case (Some(h), Some(l), Some(rest)) => Some([h * 16 + l] + rest)
      case _ => None
  }

  lemma HexValueUpper(d: nat)
    requires d < 16
    ensures HexValue(UpperDigit(d)) == Some(d)
  {
  }

  /** The UID text reads back as the same bytes. */
  lemma {:induction false} ParsePairsHex(uid: seq<Byte>)
    ensures ParsePairs(HexPairs(uid)) == Some(uid)
    decreases |uid|
  {
    if uid != [] {
      var s := HexPairs(uid);
      assert s[2..] == HexPairs(uid[1..]);
      ParsePairsHex(uid[1..]);
      HexValueUpper(uid[0] / 16);
      HexValueUpper(uid[0] % 16);
      assert [uid[0]] + uid[1..] == uid;
    }
  }

  /** Two characters per byte after "UID:", and the text decodes back to
      the bytes it was made from. */
  lemma UidRoundTrip(uid: seq<Byte>)
    ensures |UidString(uid)| == 4 + 2 * |uid|
    ensures ParseUid(UidString(uid)) == Some(uid)
  {
    assert UidString(uid)[..4] == "UID:";
    assert UidString(uid)[4..] == HexPairs(uid);
    ParsePairsHex(uid);
  }

  /** The NFC module. It keeps no state of its own that this model needs. */
  class NfcModule {
    constructor ()
    {
    }

    /** runReaderTask: on a read, the UID text; otherwise false and
        `result` handed back unchanged. */
    method RunReaderTask(tag: TagRead, result: string) returns (found: bool, result': string)
      ensures found <==> tag.Some?
      ensures found ==> result' == UidString(tag.value)
      ensures !found ==> result' == result
    {
      if tag.None? {
        return false, result;
      }
      var uid := tag.value;
      var uidStr := "UID:";
      for i := 0 to |uid|
        invariant ToUpper(uidStr) == "UID:" + HexPairs(uid[..i])
      {
        ReaderStep(uidStr, uid[..i], uid[i]);
        assert uid[..i + 1] == uid[..i] + [uid[i]];
        ghost var next := uidStr + PaddedHex(uid[i]);
        if uid[i] < 0x10 {
          uidStr := uidStr + "0";
        }
        uidStr := uidStr + LowerHex(uid[i]);
        assert uidStr == next;
      }
      assert uid[..|uid|] == uid;
      result' := ToUpper(uidStr);
      found := true;
    }
  }

  /** One turn of the loop of runReaderTask, upper-cased. */
  lemma ReaderStep(text: string, done: seq<Byte>, b: Byte)
    requires ToUpper(text) == "UID:" + HexPairs(done)
    ensures ToUpper(text + PaddedHex(b)) == "UID:" + HexPairs(done + [b])
  {
    ToUpperAppend(text, PaddedHex(b));
    PaddedHexUpper(b);
    HexPairsAppend(done, b);
  }

  lemma HexPairsAppend(uid: seq<Byte>, b: Byte)
    ensures HexPairs(uid + [b]) == HexPairs(uid) + [UpperDigit(b / 16), UpperDigit(b % 16)]
  {
    var l := HexPairs(uid + [b]);
    var r := HexPairs(uid) + [UpperDigit(b / 16), UpperDigit(b % 16)];
    assert |l| == |r|;
    forall k | 0 <= k < |l| ensures l[k] == r[k] {
      var i := k / 2;
      assert k == 2 * i || k == 2 * i + 1;
      assert (uid + [b])[i] == if i < |uid| then uid[i] else b;
    }
  }

  /** What initEmulator sets up: the NDEF URL record and the UID the
      emulated tag answers with. */
  datatype Emulation = Emulation(url: string, uid: seq<Byte>)

  function EmulatorUrl(deviceId: Byte): string {
    NdefBaseUrl + Decimal(deviceId)
  }

  const MaxNdefSize: nat := 120

  /** initEmulator(deviceId), given the size the NDEF library reports for the
      encoded message: aborts (None) when that exceeds 120 bytes. */
  function InitEmulator(deviceId: Byte, encodedSize: nat): (e: Option<Emulation>)
    ensures e.Some? <==> encodedSize <= MaxNdefSize
    ensures e.Some? ==> e.value.uid == MyUid(deviceId) && StartsWith(e.value.url, NdefBaseUrl)
  {
    if encodedSize > MaxNdefSize then None else Some(Emulation(EmulatorUrl(deviceId), MyUid(deviceId)))
  }

  /** The URL names the device: what follows the base URL is its decimal id. */
  lemma EmulatorUrlNamesDevice(deviceId: Byte)
    ensures EmulatorUrl(deviceId)[|NdefBaseUrl|..] == Decimal(deviceId)
    ensures ToInt(EmulatorUrl(deviceId)[|NdefBaseUrl|..]) == deviceId
  {
    assert EmulatorUrl(deviceId)[|NdefBaseUrl|..] == Decimal(deviceId);
    ToIntDecimal(deviceId, "");
    assert Decimal(deviceId) + "" == Decimal(deviceId);
  }
}
