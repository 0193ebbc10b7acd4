/**
 * Format sniffing by magic bytes (`MAGIC_BYTES` and `get_file_type`): the first bytes
 * of a file are matched, in table order, against four image signatures.
 */
module Sniffer {
  import opened Wrappers
  import opened Text

  type byte = x: int | 0 <= x < 256

  /** One entry of the signature table: a content category, a byte prefix and the format it identifies. */
  datatype Signature = Signature(category: string, magic: seq<byte>, ext: string)

  /** What sniffing found: the content category and the format extension (without a dot). */
  datatype FileType = FileType(category: string, ext: string)

  /** `f.read(32)`: how many leading bytes are inspected. */
  const HeaderLength: nat := 32

  /** The signature table, in the order the program tries it. */
  const MagicTable: seq<Signature> := [
    Signature("images", [0xFF, 0xD8, 0xFF], "jpg"),
    Signature("images", [0x89, 0x50, 0x4E, 0x47, 0x0D, 0x0A, 0x1A, 0x0A], "png"),  // "\x89PNG\r\n\x1A\n"
    Signature("images", [0x47, 0x49, 0x46, 0x38], "gif"),                          // "GIF8"
    Signature("images", [0x42, 0x4D], "bmp")                                       // "BM"
  ]

  predicate Matches(header: seq<byte>, k: nat)
    requires k < |MagicTable|
  {
    StartsWith(header, MagicTable[k].magic)
  }

  /** The index of the first entry at or after `from` whose magic prefixes `header`; `|MagicTable|` if none does. */
  function FirstMatch(header: seq<byte>, from: nat): (k: nat)
    requires from <= |MagicTable|
    ensures from <= k <= |MagicTable|
    ensures k < |MagicTable| ==> Matches(header, k)
    ensures forall j :: from <= j < k ==> !Matches(header, j)
    decreases |MagicTable| - from
  {
    if from == |MagicTable| then from
    else if Matches(header, from) then from
    else FirstMatch(header, from + 1)
  }

  /** The table search of `get_file_type` on the bytes already read. */
  function Detect(header: seq<byte>): (r: Option<FileType>)
    ensures r.Some? <==> exists k :: 0 <= k < |MagicTable| && Matches(header, k)
    ensures r.Some? ==> r.value.category == "images" && r.value.ext in {"jpg", "png", "gif", "bmp"}
    ensures r.Some? ==> var k := FirstMatch(header, 0);
      k < |MagicTable| && r.value == FileType(MagicTable[k].category, MagicTable[k].ext)
  {
    var k := FirstMatch(header, 0);
    if k < |MagicTable| then Some(FileType(MagicTable[k].category, MagicTable[k].ext)) else None
  }

  /**
   * `get_file_type`: `contents` is what the file holds, or `None` when opening or reading
   * it raises; only the first `HeaderLength` bytes are looked at, and a read failure is
   * reported as "no type" (`(None, None)`).
   */
  function GetFileType(contents: Option<seq<byte>>): (r: Option<FileType>)
    ensures contents.None? ==> r.None?
    ensures r.Some? ==> r.value.category == "images" && r.value.ext in {"jpg", "png", "gif", "bmp"}
    ensures contents.Some? ==> r == Detect(contents.value)
  {
    match contents
    case None => None
    case Some(bytes) =>
      var header := if |bytes| <= HeaderLength then bytes else bytes[..HeaderLength];
      HeaderWindowSuffices(bytes);
      Detect(header)
  }

  /** Every signature is at most eight bytes long, so reading 32 bytes decides the same as reading them all. */
  lemma {:induction false} HeaderWindowSuffices(bytes: seq<byte>)
    ensures Detect(if |bytes| <= HeaderLength then bytes else bytes[..HeaderLength]) == Detect(bytes)
  {
    if |bytes| > HeaderLength {
      var header := bytes[..HeaderLength];
      forall k | 0 <= k < |MagicTable|
        ensures Matches(header, k) <==> Matches(bytes, k)
      {
        var m := MagicTable[k].magic;
        assert |m| <= 8;
        assert header[..|m|] == bytes[..|m|];
      }
      assert FirstMatch(header, 0) == FirstMatch(bytes, 0);
    }
  }

  /** No two signatures can both prefix the same header, so the table order never decides between them. */
  lemma {:induction false} SignaturesExclusive(header: seq<byte>, i: nat, j: nat)
    requires i < |MagicTable| && j < |MagicTable|
    requires Matches(header, i) && Matches(header, j)
    ensures i == j
  {
    assert header[0] == MagicTable[i].magic[0] == MagicTable[j].magic[0];
  }
}
