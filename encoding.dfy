/** `decode_file_content` of the message parser: which encoding a page is decoded with. */
module Encoding {
  import opened Base

  type Bytes = seq<bv8>

  /**
   * The dictionary `chardet.detect` returns, read with `.get`: either key may be absent (None here),
   * and a present `encoding` may itself be None.
   */
  datatype Detection = Detection(encoding: Option<Option<string>>, confidence: Option<real>)

  const Fallback: string := "windows-1251"

  const Threshold: real := 0.7

  /** `result.get("encoding", "utf-8")` */
  function EncodingField(d: Detection): Option<string> {
    match d.encoding
    case None => Some("utf-8")
    case Some(e) => e
  }

  /** `result.get("confidence", 0)` */
  function ConfidenceField(d: Detection): real {
    match d.confidence
    case None => 0.0
    case Some(c) => c
  }

  /** The detected encoding when it is a non-empty name with confidence at least 0.7, windows-1251 otherwise. */
  function ChosenEncoding(d: Detection): (enc: string)
    ensures Truthy(EncodingField(d)) && ConfidenceField(d) >= Threshold ==> enc == EncodingField(d).value
    ensures !(Truthy(EncodingField(d)) && ConfidenceField(d) >= Threshold) ==> enc == Fallback
    ensures enc != ""
  {
    var encoding := EncodingField(d);
    if !Truthy(encoding) || ConfidenceField(d) < Threshold then Fallback else encoding.value
  }

  /** The text of a page: decoded with the chosen encoding, or with windows-1251 replacing what it cannot decode. */
  function DecodedContent(raw: Bytes, detect: Bytes -> Detection, decode: (Bytes, string) -> Option<string>,
                          decodeReplace: Bytes -> string): string
  {
    match decode(raw, ChosenEncoding(detect(raw)))
    case Some(text) => text
    case None => decodeReplace(raw)
  }

  /**
   * `decode_file_content` on the bytes already read. `detect` stands for chardet, `decode(raw, e)` for
   * `raw.decode(e)` (None when it raises) and `decodeReplace` for `raw.decode("windows-1251", errors="replace")`.
   */
  method DecodeFileContent(raw: Bytes, detect: Bytes -> Detection, decode: (Bytes, string) -> Option<string>,
                           decodeReplace: Bytes -> string) returns (content: string)
    ensures decode(raw, ChosenEncoding(detect(raw))).Some? ==> content == decode(raw, ChosenEncoding(detect(raw))).value
    ensures decode(raw, ChosenEncoding(detect(raw))).None? ==> content == decodeReplace(raw)
    ensures content == DecodedContent(raw, detect, decode, decodeReplace)
  {
    var result := detect(raw);
    var encoding := EncodingField(result);
    var confidence := ConfidenceField(result);
    var chosen: string;
    if !Truthy(encoding) || confidence < Threshold {
      chosen := Fallback;
    } else {
      chosen := encoding.value;
    }
    var attempt := decode(raw, chosen);
    if attempt.Some? {
      content := attempt.value;
    } else {
      content := decodeReplace(raw);
    }
  }

  /** The defaults of `.get`: no keys at all means windows-1251; a missing confidence counts as 0. */
  lemma ChosenEncodingDefaults(e: Option<string>)
    ensures ChosenEncoding(Detection(None, None)) == Fallback
    ensures ChosenEncoding(Detection(Some(e), None)) == Fallback
    ensures ChosenEncoding(Detection(None, Some(0.9))) == "utf-8"
    ensures ChosenEncoding(Detection(Some(None), Some(1.0))) == Fallback
    ensures ChosenEncoding(Detection(Some(Some("utf-8")), Some(0.7))) == "utf-8"
    ensures ChosenEncoding(Detection(Some(Some("utf-8")), Some(0.69))) == Fallback
  {
  }
}
