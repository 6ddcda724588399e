/**
 * `MFTHeader.create_from_binary` of libmft/api.py: the entry header of libmft/headers.py
 * read under a configuration. The signature is checked only when the configuration asks
 * for it, and a first attribute offset inside the header is refused as well.
 */
module ApiHeader {
  import opened Wrappers
  import opened Bytes
  import opened Headers

  /** The header passes the checks of libmft/api.py. */
  predicate CheckedAccepted(h: MftHeader)
  {
    Accepted(h) && h.firstAttrOffset >= MFT_HEADER_SIZE
  }

  /** `MFTHeader.create_from_binary(mft_config, binary_view)`; `baad` is unset when the signature is ignored. */
  function DecodeEntryHeader(ignoreSignatureCheck: bool, v: seq<Byte>): (r: Result<MftHeader, HeaderError>)
    ensures r.Success? ==> CheckedAccepted(r.value) && (r.value.baad.None? <==> ignoreSignatureCheck)
  {
    if |v| < MFT_HEADER_SIZE then Failure(Truncated)
    else if !ignoreSignatureCheck && !SignatureIs(v, FILE_SIGNATURE) && !SignatureIs(v, BAAD_SIGNATURE) then
      Failure(NoValidSignature)
    else if LeUintAt(v, 4, 2) < MFT_HEADER_SIZE then Failure(FixupInsideHeader)
    else if LeUintAt(v, 20, 2) < MFT_HEADER_SIZE then Failure(FirstAttrInsideHeader)
    else if LeUintAt(v, 24, 4) > LeUintAt(v, 28, 4) then Failure(LogicalSizeExceedsAllocated)
    else
      Success(ReadMftHeader(v, if ignoreSignatureCheck then None else Some(!SignatureIs(v, FILE_SIGNATURE))))
  }

  /**
   * With the signature checked, the configured decoder accepts exactly the headers that
   * libmft/headers.py accepts and whose first attribute lies past the header, and then
   * reads the same header.
   */
  lemma {:induction false} CheckedAgreesWithHeaders(v: seq<Byte>)
    ensures DecodeEntryHeader(false, v).Success? <==>
              DecodeMftHeader(v).Success? && DecodeMftHeader(v).value.firstAttrOffset >= MFT_HEADER_SIZE
    ensures DecodeEntryHeader(false, v).Success? ==> DecodeEntryHeader(false, v) == DecodeMftHeader(v)
  {
    if |v| >= MFT_HEADER_SIZE && (SignatureIs(v, FILE_SIGNATURE) || SignatureIs(v, BAAD_SIGNATURE)) {
      assert ReadMftHeader(v, Some(!SignatureIs(v, FILE_SIGNATURE))).firstAttrOffset == LeUintAt(v, 20, 2);
    }
  }

  /**
   * Ignoring the signature accepts every view the checked decoder accepts, and any
   * signature at all, and reads the same fields with `baad` unset.
   */
  lemma {:induction false} IgnoringSignature(v: seq<Byte>)
    ensures DecodeEntryHeader(false, v).Success? ==>
              DecodeEntryHeader(true, v) == Success(DecodeEntryHeader(false, v).value.(baad := None))
    ensures DecodeEntryHeader(true, v).Success? ==>
              (DecodeEntryHeader(false, v).Success? <==> SignatureIs(v, FILE_SIGNATURE) || SignatureIs(v, BAAD_SIGNATURE))
  {
    if |v| >= MFT_HEADER_SIZE {
      var h := ReadMftHeader(v, None);
      assert ReadMftHeader(v, Some(!SignatureIs(v, FILE_SIGNATURE))) == h.(baad := Some(!SignatureIs(v, FILE_SIGNATURE)));
    }
  }

  /** The checked decoder reads back every header laid out by the encoder that it accepts. */
  lemma {:induction false} EntryHeaderRoundTrip(h: MftHeader, rest: seq<Byte>)
    requires Encodable(h) && h.baad.Some? && CheckedAccepted(h)
    ensures DecodeEntryHeader(false, EncodeMftHeader(h) + rest) == Success(h)
  {
    MftHeaderRoundTrip(h, rest);
    CheckedAgreesWithHeaders(EncodeMftHeader(h) + rest);
  }
}
