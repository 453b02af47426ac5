/**
 * The string rules of app/lib/storage.ts: the generated file name and its
 * extension, the keys and URLs of an upload, the URL a key is served under,
 * stripping a data-URL prefix before base64 decoding (the "data:" URL of
 * RFC 2397), and the size and type checks. The storage provider is the
 * parameter `provider`; the clock, the random bytes, the file system, S3 and
 * the base64 decoder are parameters too.
 */
module Storage {
  import Text
  import opened Wrappers

  /** The last piece of `s.split(c)`: the text after the last `c`, or all of `s` without one. */
  function LastPiece(s: string, c: char): string {
    var parts := Text.Split(s, c);
    parts[|parts| - 1]
  }

  /** The last piece is a suffix of `s` free of `c`, and is either all of `s` or follows a `c`. */
  lemma {:induction false} LastPieceShape(s: string, c: char)
    ensures var p := LastPiece(s, c);
      |p| <= |s| && p == s[|s| - |p|..] && c !in p && (|p| == |s| || s[|s| - |p| - 1] == c)
  {
    if s != [] {
      LastPieceShape(s[1..], c);
      LastPieceStep(s, c);
      var q := LastPiece(s[1..], c);
      if LastPiece(s, c) == q {
        assert s[1..][|s| - 1 - |q|..] == s[|s| - |q|..];
        if s[0] != c {
          SplitSeveral(s[1..], c);
          SuffixWithout(s[1..], q, c);
        }
        if |q| < |s| - 1 {
          assert s[1..][|s| - 1 - |q| - 1] == s[|s| - |q| - 1];
        }
      }
    }
  }

  /** One step of the split: a first piece running to the end makes all of `s` the last piece. */
  lemma LastPieceStep(s: string, c: char)
    requires s != []
    ensures var rest := Text.Split(s[1..], c);
      if s[0] != c && |rest| == 1 then LastPiece(s, c) == s && c !in s[1..]
      else LastPiece(s, c) == LastPiece(s[1..], c) && (s[0] != c ==> |rest| > 1)
  {
    var rest := Text.Split(s[1..], c);
    if s[0] != c && |rest| == 1 {
      Text.JoinSplit(s[1..], c);
      assert rest == [rest[0]];
    }
  }

  /** A string that splits into several pieces holds the separator. */
  lemma {:induction false} SplitSeveral(s: string, c: char)
    ensures |Text.Split(s, c)| > 1 ==> c in s
  {
    if s != [] && s[0] != c {
      SplitSeveral(s[1..], c);
    }
  }

  /** A suffix without `c` of a string with `c` is shorter than it. */
  lemma SuffixWithout(s: string, q: string, c: char)
    requires |q| <= |s| && q == s[|s| - |q|..] && c in s && c !in q
    ensures |q| < |s|
  {
  }

  /** `originalFilename.split('.').pop() || 'jpg'`. */
  function Extension(originalFilename: string): (ext: string)
    ensures ext != "" && '.' !in ext
    ensures ext == "jpg" || LastPiece(originalFilename, '.') == ext
    ensures LastPiece(originalFilename, '.') != "" ==> ext == LastPiece(originalFilename, '.')
  {
    var last := LastPiece(originalFilename, '.');
    if last == "" then "jpg" else last
  }

  /** Without any '.', the whole name is the extension; an empty name gets 'jpg'. */
  lemma ExtensionWithoutDot(originalFilename: string)
    requires '.' !in originalFilename
    ensures Extension(originalFilename) == if originalFilename == "" then "jpg" else originalFilename
  {
    Text.SplitWithoutSeparator(originalFilename, '.');
  }

  /** After the last '.' of `base` comes `ext`: the extension of such a name is `ext`. */
  lemma ExtensionAfterDot(base: string, ext: string)
    requires ext != "" && '.' !in ext
    ensures Extension(base + "." + ext) == ext
  {
    var s := base + "." + ext;
    LastPieceShape(s, '.');
    var p := LastPiece(s, '.');
    if |p| < |ext| {
      Text.CharOfConcat(base + ".", ext, |s| - |p| - 1);
      assert false;
    } else if |p| > |ext| {
      Text.CharOfConcat(base + ".", ext, |base|);
      Text.CharOfConcat(base, ".", |base|);
      Text.CharOfSuffix(s, p, |p| - |ext| - 1);
      assert false;
    } else {
      assert p == s[|s| - |ext|..] == ext;
    }
  }

  /** `generateFilename`: "<timestamp>-<random hex>.<extension>". */
  function GenerateFilename(originalFilename: string, timestamp: nat, randomHex: string): string {
    Text.NatToString(timestamp) + "-" + randomHex + "." + Extension(originalFilename)
  }

  /** The generated name ends in the extension, so reading its extension gives that back. */
  lemma GeneratedExtension(originalFilename: string, timestamp: nat, randomHex: string)
    ensures Extension(GenerateFilename(originalFilename, timestamp, randomHex)) == Extension(originalFilename)
  {
    ExtensionAfterDot(Text.NatToString(timestamp) + "-" + randomHex, Extension(originalFilename));
  }

  datatype UploadResult = UploadResult(url: string, key: string, size: nat)

  /** `uploadToLocal` once the file is written: key "snapshots/<file>", url "/uploads/<key>". */
  function UploadToLocal(originalFilename: string, size: nat, timestamp: nat, randomHex: string): (r: UploadResult)
    ensures r.key == "snapshots/" + GenerateFilename(originalFilename, timestamp, randomHex)
    ensures r.url == "/uploads/" + r.key && r.size == size
  {
    var relativePath := "snapshots/" + GenerateFilename(originalFilename, timestamp, randomHex);
    UploadResult("/uploads/" + relativePath, relativePath, size)
  }

  /** `uploadToS3` once the object is sent; `region` is the text of `AWS_REGION`. */
  function UploadToS3(originalFilename: string, size: nat, timestamp: nat, randomHex: string, bucket: string, region: string)
    : (r: UploadResult)
    ensures r.key == "snapshots/" + GenerateFilename(originalFilename, timestamp, randomHex)
    ensures r.url == "https://" + bucket + ".s3." + region + ".amazonaws.com/" + r.key && r.size == size
  {
    var key := "snapshots/" + GenerateFilename(originalFilename, timestamp, randomHex);
    UploadResult("https://" + bucket + ".s3." + region + ".amazonaws.com/" + key, key, size)
  }

  /** `uploadFile`: S3 for the provider "s3", local storage for any other. */
  function UploadFile(provider: string, originalFilename: string, size: nat, timestamp: nat, randomHex: string,
    bucket: string, region: string): (r: UploadResult)
    ensures provider == "s3" ==> r == UploadToS3(originalFilename, size, timestamp, randomHex, bucket, region)
    ensures provider != "s3" ==> r == UploadToLocal(originalFilename, size, timestamp, randomHex)
  {
    if provider == "s3" then UploadToS3(originalFilename, size, timestamp, randomHex, bucket, region)
    else UploadToLocal(originalFilename, size, timestamp, randomHex)
  }

  /** `key.replace(/^\/+/, '')`. */
  function DropLeadingSlashes(key: string): (r: string)
    ensures |r| <= |key| && r == key[|key| - |r|..]
    ensures r == [] || r[0] != '/'
    ensures forall i :: 0 <= i < |key| - |r| ==> key[i] == '/'
  {
    if key != [] && key[0] == '/' then DropLeadingSlashes(key[1..]) else key
  }

  /** `getFileUrl`: a signed URL for S3 (the parameter `sign`), else "/uploads/" and the key without leading '/'. */
  function GetFileUrl(provider: string, key: string, sign: string -> string): (url: string)
    ensures provider == "s3" ==> url == sign(key)
    ensures provider != "s3" ==> url == "/uploads/" + DropLeadingSlashes(key)
  {
    if provider == "s3" then sign(key) else "/uploads/" + DropLeadingSlashes(key)
  }

  /** A local upload is served under the URL it reported. */
  lemma LocalUrlMatches(originalFilename: string, size: nat, timestamp: nat, randomHex: string, sign: string -> string)
    ensures var r := UploadToLocal(originalFilename, size, timestamp, randomHex);
      GetFileUrl("local", r.key, sign) == r.url
  {
    var r := UploadToLocal(originalFilename, size, timestamp, randomHex);
    assert r.key[0] == 's';
  }

  /** `getLocalFileBuffer`: nothing unless local; otherwise what reading the file gives (`read`, `None` on error). */
  function LocalFileBuffer(provider: string, key: string, read: string -> Option<seq<bv8>>): (r: Option<seq<bv8>>)
    ensures provider != "local" ==> r.None?
    ensures provider == "local" ==> r == read(key)
  {
    if provider != "local" then None else read(key)
  }

  const DataPrefix := "data:image/"
  const Base64Marker := ";base64,"

  /** The length of the run of word characters (`\w`) at the front of `s`. */
  function WordRun(s: string): (n: nat)
    ensures n <= |s|
    ensures forall i :: 0 <= i < n ==> Text.IsWordChar(s[i])
    ensures n < |s| ==> !Text.IsWordChar(s[n])
  {
    if s != [] && Text.IsWordChar(s[0]) then 1 + WordRun(s[1..]) else 0
  }

  /** Whether `s` starts with a match of `/^data:image\/\w+;base64,/`, and how long that match is. */
  function PrefixLength(s: string): (n: Option<nat>)
    ensures n.Some? ==> n.value <= |s|
  {
    if !Text.StartsWith(s, DataPrefix) then None
    else
      var run := WordRun(s[|DataPrefix|..]);
      var rest := s[|DataPrefix| + run..];
      if run >= 1 && Text.StartsWith(rest, Base64Marker) then Some(|DataPrefix| + run + |Base64Marker|) else None
  }

  /** The text `base64ToBuffer` decodes: `s` with one data-URL prefix removed, only at its start. */
  function Base64Data(s: string): (r: string)
    ensures PrefixLength(s).None? ==> r == s
    ensures PrefixLength(s).Some? ==> r == s[PrefixLength(s).value..]
  {
    match PrefixLength(s)
    case None => s
    case Some(n) => s[n..]
  }

  /** `base64ToBuffer`; the decoder is the parameter `decode`. */
  function Base64ToBuffer(s: string, decode: string -> seq<bv8>): seq<bv8> {
    decode(Base64Data(s))
  }

  /** A data URL of an image subtype made of word characters gives back exactly its payload. */
  lemma DataUrlPayload(subtype: string, payload: string)
    requires subtype != [] && forall i :: 0 <= i < |subtype| ==> Text.IsWordChar(subtype[i])
    ensures Base64Data(DataPrefix + subtype + Base64Marker + payload) == payload
  {
    var s := DataPrefix + subtype + Base64Marker + payload;
    assert s[..|DataPrefix|] == DataPrefix;
    var tail := s[|DataPrefix|..];
    assert tail == subtype + Base64Marker + payload;
    WordRunOf(subtype, Base64Marker + payload);
    assert tail == subtype + (Base64Marker + payload);
    assert tail[|subtype|..] == Base64Marker + payload;
    assert s[|DataPrefix| + |subtype|..] == Base64Marker + payload;
    assert (Base64Marker + payload)[..|Base64Marker|] == Base64Marker;
    assert s[|DataPrefix| + |subtype| + |Base64Marker|..] == payload;
  }

  /** The word run of a word followed by a non-word character is that word. */
  lemma {:induction false} WordRunOf(w: string, rest: string)
    requires forall i :: 0 <= i < |w| ==> Text.IsWordChar(w[i])
    requires rest != [] && !Text.IsWordChar(rest[0])
    ensures WordRun(w + rest) == |w|
  {
    if w != [] {
      WordRunOf(w[1..], rest);
      assert (w + rest)[1..] == w[1..] + rest;
    }
  }

  /** The prefix is removed once: a payload that itself starts with a data-URL prefix keeps it. */
  lemma PrefixRemovedOnce(subtype: string, payload: string)
    requires subtype != [] && forall i :: 0 <= i < |subtype| ==> Text.IsWordChar(subtype[i])
    requires PrefixLength(payload).Some?
    ensures Base64Data(DataPrefix + subtype + Base64Marker + payload) == payload != Base64Data(payload)
  {
    DataUrlPayload(subtype, payload);
    assert |Base64Data(payload)| < |payload|;
  }

  /** A string that does not start with "data:image/" is decoded as it is. */
  lemma OnlyAtStart(s: string)
    requires !Text.StartsWith(s, DataPrefix)
    ensures Base64Data(s) == s
  {
  }

  /** `validateFileSize`: at most `maxSizeMB` (5 by default) mebibytes, the boundary included. */
  function ValidateFileSize(size: int, maxSizeMB: int): (ok: bool)
    ensures ok <==> size <= maxSizeMB * 1048576
  {
    size <= maxSizeMB * 1024 * 1024
  }

  /** With the default limit, 5 MiB passes and one byte more does not; smaller sizes pass whenever a size does. */
  lemma FileSizeBoundary(size: int, smaller: int)
    requires smaller <= size
    ensures ValidateFileSize(5 * 1048576, 5) && !ValidateFileSize(5 * 1048576 + 1, 5)
    ensures ValidateFileSize(size, 5) ==> ValidateFileSize(smaller, 5)
  {
  }

  /** `validateImageType`: exactly JPEG, PNG and WebP. */
  function ValidateImageType(contentType: string): (ok: bool)
    ensures ok <==> contentType in {"image/jpeg", "image/png", "image/webp"}
  {
    contentType in ["image/jpeg", "image/png", "image/webp"]
  }
}
