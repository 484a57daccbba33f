/** The size limits on a request (src/proxy.rs): a cap on the encrypted envelope before it is
    buffered, and one on the decrypted body before it is forwarded. */
module RequestCap {
  import opened Prelude
  import opened Bytes
  import opened Aeads
  import opened Usize
  import Hex

  const JSON_OVERHEAD: nat := 64
  const OPEN: string := "{\"ciphertext\":\""
  const CLOSE: string := "\"}"

  /** The envelope as a client writes it, without white space. */
  function Compact(ciphertext: seq<Byte>): (e: string)
    ensures |e| == 2 * |ciphertext| + 17
  {
    OPEN + Hex.Encode(ciphertext) + CLOSE
  }

  function PreDecryptCap(max: nat): nat {
    SaturatingAdd(SaturatingMul(SaturatingAdd(max, 16), 2), JSON_OVERHEAD)
  }

  /** What stands between the wire and the body: the JSON reader and the session's decryption. */
  datatype Gate = Gate(parse: string -> Option<string>, decrypt: seq<Byte> -> Option<seq<Byte>>)

  datatype Verdict = EnvelopeTooLarge | BadEnvelope | BadHex | DecryptFailed | BodyTooLarge | Forward(body: seq<Byte>)

  /** The request path, in the order of its checks. */
  function Admit(g: Gate, max: nat, envelope: string): (v: Verdict)
    ensures v.Forward? ==> |v.body| <= max
  {
    if |envelope| > PreDecryptCap(max) then EnvelopeTooLarge
    else
      var hex := g.parse(envelope);
      if hex.None? then BadEnvelope
      else
        var ct := Hex.Decode(hex.value);
        if ct.None? then BadHex
        else
          var body := g.decrypt(ct.value);
          if body.None? then DecryptFailed
          else if |body.value| > max then BodyTooLarge
          else Forward(body.value)
  }

  /** The reader takes the hex text out of a compact envelope. */
  ghost predicate ReadsCompact(g: Gate, ciphertext: seq<Byte>) {
    g.parse(Compact(ciphertext)) == Some(Hex.Encode(ciphertext))
  }

  /** The verdict on the compact envelope of an honest request, for every body: forwarded if and
      only if the body is within the limit; a body up to 23 octets above it is refused after
      decryption, a longer one before. */
  lemma {:induction false} HonestRequest(g: Gate, max: nat, ciphertext: seq<Byte>, body: seq<Byte>)
    requires max <= USIZE_MAX
    requires |Compact(ciphertext)| <= USIZE_MAX
    requires ReadsCompact(g, ciphertext)
    requires g.decrypt(ciphertext) == Some(body) && |ciphertext| == |body| + TAG_LEN
    ensures Admit(g, max, Compact(ciphertext))
            == if |body| <= max then Forward(body)
               else if |body| <= max + 23 || 2 * (max + 16) + 64 > USIZE_MAX then BodyTooLarge
               else EnvelopeTooLarge
  {
    assert |Compact(ciphertext)| <= PreDecryptCap(max)
           <==> |ciphertext| <= max + TAG_LEN + 23 || 2 * (max + 16) + 64 > USIZE_MAX;
    hide PreDecryptCap, Compact;
    Hex.DecodeEncode(ciphertext);
  }

  /** For any envelope: a body is forwarded if and only if it is what an envelope within the cap, with
      its hex text, decrypts to, and is itself within the limit. */
  lemma {:induction false} ForwardsExactly(g: Gate, max: nat, envelope: string, body: seq<Byte>)
    ensures Admit(g, max, envelope) == Forward(body)
            <==> && |envelope| <= PreDecryptCap(max) && |body| <= max
                 && exists hex, ciphertext ::
                      g.parse(envelope) == Some(hex) && Hex.Decode(hex) == Some(ciphertext) && g.decrypt(ciphertext) == Some(body)
  {
    hide PreDecryptCap, Hex.Decode;
    if g.parse(envelope).Some? {
      var hex := g.parse(envelope).value;
      if Hex.Decode(hex).Some? {
        assert Hex.Decode(hex) == Some(Hex.Decode(hex).value);
      }
    }
  }
}
