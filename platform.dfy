/** What the index code takes from libraries whose inner workings are not
    modelled: digests, base64, CMS/X.509, JSON parsing, ZIP reading and the
    standard library's default hasher. They are passed around as one
    record of functions, so every statement about the pipeline holds for
    whatever these functions compute. */
module Platform {
  import opened Wrappers
  import opened Bytes
  import opened Json
  import opened Archive

  /** A certificate and a signer are known only by identity. */
  datatype Certificate = Certificate(id: nat)
  datatype Signer = Signer(id: nat)

  /** The parts of a CMS SignedData structure (section 5 of RFC 5652) the
      index check looks at. */
  datatype SignedData = SignedData(certificates: seq<Certificate>, signers: seq<Signer>)

  datatype Primitives = Primitives(
    /** SHA-1 and SHA-256 (FIPS 180-4). */
    sha1: Bytes -> Bytes,
    sha256: Bytes -> Bytes,
    /** Standard-alphabet base64 decoding (section 4 of RFC 4648). */
    base64Decode: Bytes -> Option<Bytes>,
    /** `SignedData::parse_ber`. */
    parseSignedData: Bytes -> Option<SignedData>,
    /** `SignerInfo::verify_signature_with_signed_data_and_content`. */
    signerVerifies: (SignedData, Signer, Bytes) -> bool,
    /** The older check: `certificate.verify_signed_data(content, signature)`. */
    certificateVerifies: (Certificate, Bytes, Signer) -> bool,
    /** `encode_ber` of a certificate; it can fail. */
    encodeBer: Certificate -> Option<Bytes>,
    /** `X509::from_der` followed by a SHA-256 digest; either can fail. */
    x509Sha256: Bytes -> Option<Bytes>,
    /** `serde_json::from_str` on a text's bytes. */
    parseJson: Bytes -> Option<Json>,
    /** `ZipArchive::new` and its entries in archive order. */
    unzip: Bytes -> Option<seq<ZipEntry>>,
    /** `DefaultHasher` over a string, finished. */
    stringHash: string -> u64)
}
