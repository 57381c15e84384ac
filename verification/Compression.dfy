/** The compression table shared by sender and receiver (internal/syncoid/compression.go). */
module Compression {
  import opened Text

  const COMPRESSION_NONE := "none"

  /** `name` with `args` is one decompressor invocation. */
  datatype Invocation = Invocation(name: string, args: seq<string>)

  datatype Spec = Spec(sender: string, decompressor: string, allowed: seq<Invocation>)

  function SpecFor(compression: string): (spec: Option<Spec>) {
    if compression == "" || compression == COMPRESSION_NONE then Some(Spec(COMPRESSION_NONE, "", []))
    else if compression == "gzip" then
      Some(Spec("gzip", "gzip", [Invocation("zcat", []), Invocation("gzip", ["-dc"])]))
    else if compression == "pigz" then Some(Spec("pigz-fast", "pigz", [Invocation("pigz", ["-dc"])]))
    else if compression == "zstd" then Some(Spec("zstd-fast", "zstd", [Invocation("zstd", ["-dc"])]))
    else if compression == "zstdmt" then Some(Spec("zstdmt-fast", "zstdmt", [Invocation("zstdmt", ["-dc"])]))
    else if compression == "xz" then
      Some(Spec("xz", "xz", [Invocation("xz", ["-d"]), Invocation("xz", ["-dc"]), Invocation("xz", ["-d", "-c"])]))
    else if compression == "lzop" then
      Some(Spec("lzo", "lzop", [Invocation("lzop", ["-dfc"]), Invocation("lzop", ["-dc"])]))
    else if compression == "lz4" then Some(Spec("lz4", "lz4", [Invocation("lz4", ["-dc"])]))
    else None
  }

  /** The keys of the table that stand for a real compressor. */
  const COMPRESSORS: seq<string> := ["gzip", "pigz", "zstd", "zstdmt", "xz", "lzop", "lz4"]

  function CompressionDefault(compression: string): (c: string) {
    if compression == "" then COMPRESSION_NONE else compression
  }

  predicate CompressionSupported(compression: string) {
    SpecFor(compression).Some?
  }

  predicate Compressed(compression: string) {
    CompressionSupported(compression) && compression != "" && compression != COMPRESSION_NONE
  }

  predicate CompressorAllowed(name: string) {
    exists c :: c in COMPRESSORS && SpecFor(c).Some? && SpecFor(c).value.decompressor == name
  }

  predicate DecompressorAllowed(name: string, args: seq<string>, compression: string) {
    Compressed(compression) && Invocation(name, args) in SpecFor(compression).value.allowed
  }
}
