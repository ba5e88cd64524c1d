/** What the two update catalogs share: feeds, manifests, the checks on a save, and the laws of the JSON codec. */
module Updates {
  import opened Wrappers

  const MAX_MANIFEST_BYTES: nat := 256 * 1024
  const MAX_HISTORY_BYTES: nat := 64 * 1024 * 1024
  const HISTORY_SHOWN: nat := 20

  datatype Artifact = Artifact(url: string, size: int, sha256: string)
  datatype Manifest = Manifest(schemaVersion: int, productId: string, version: string, publishedAt: string,
                               releaseNotes: map<string, seq<string>>, artifacts: map<string, Artifact>)

  /** The text digest-enabled-revision; it is taken apart here because the three parts determine it and each other. */
  datatype ETag = NoTag | Tag(digest: string, enabled: bool, revision: int)

  datatype UpdateFeed = UpdateFeed(etag: ETag, name: string, description: string, enabled: bool, revision: int,
                                   updatedAt: int, updatedBy: int, manifest: Option<Manifest>)
  datatype Input = Input(etag: ETag, description: string, enabled: Option<bool>, revision: int, manifest: Manifest)
  datatype Error = NotFound | Invalid | Conflict | Corrupt | TooLarge | StepFailed | DuplicateRow

  // ----- The codec -----

  /** JSON and hashing, as the catalogs use them. `wellFormed` is the field-by-field part of manifest validation. */
  datatype Codec = Codec(
    wellFormed: Manifest -> bool,
    compact: Manifest -> string,
    indent: Manifest -> string,
    parse: string -> Option<Manifest>,
    isJson: string -> bool,
    digest: string -> string,
    encodeHistory: seq<UpdateFeed> -> string,
    decodeHistory: string -> Option<seq<UpdateFeed>>)

  predicate Valid(c: Codec, m: Manifest) {
    c.wellFormed(m) && |c.compact(m)| <= MAX_MANIFEST_BYTES
  }

  /** The text an Admin save writes. */
  function SavedText(c: Codec, m: Manifest): string { c.indent(m) + "\n" }

  function Decode(c: Codec, data: string): Result<Manifest, Error> {
    if |data| > MAX_MANIFEST_BYTES then Err(Invalid)
    else
      var m := c.parse(data);
      if m.None? || !Valid(c, m.value) then Err(Invalid) else Ok(m.value)
  }

  /** Either layout of a valid manifest reads back as that manifest. */
  ghost predicate ReadsBack(c: Codec) {
    forall m :: Valid(c, m) ==>
      c.parse(c.compact(m)) == Some(m) && c.parse(c.indent(m)) == Some(m) && c.parse(SavedText(c, m)) == Some(m)
  }

  ghost predicate ParsedIsJson(c: Codec) {
    forall data :: c.parse(data).Some? ==> c.isJson(data)
  }

  ghost predicate HistoryReadsBack(c: Codec) {
    forall h :: c.isJson(c.encodeHistory(h)) && c.decodeHistory(c.encodeHistory(h)) == Some(h)
  }

  ghost predicate DigestTells(c: Codec) {
    forall a, b :: c.digest(a) == c.digest(b) ==> a == b
  }

  ghost predicate Lawful(c: Codec) {
    ReadsBack(c) && ParsedIsJson(c) && HistoryReadsBack(c) && DigestTells(c)
  }

  /** The indented text of this manifest is small enough to be read again. */
  predicate Fits(c: Codec, m: Manifest) { |SavedText(c, m)| <= MAX_MANIFEST_BYTES }

  predicate HistoryFits(c: Codec, h: seq<UpdateFeed>) { |c.encodeHistory(h)| <= MAX_HISTORY_BYTES }

  // ----- Checks before a save -----

  predicate IsNameChar(ch: char) { 'a' <= ch <= 'z' || '0' <= ch <= '9' }

  predicate ValidName(name: string) {
    && 6 <= |name| <= 85
    && IsNameChar(name[0])
    && (forall i :: 1 <= i < |name| - 5 ==> IsNameChar(name[i]) || name[i] == '-')
    && name[|name| - 5..] == ".json"
  }

  predicate ProperRequest(name: string, input: Input, actor: int) {
    ValidName(name) && input.enabled.Some? && input.revision >= 0 && actor > 0 && |input.description| <= 500
  }

  // ----- Histories -----

  /** At most n of the items, the last one first. */
  function NewestFirst<T>(items: seq<T>, n: nat): (r: seq<T>)
    ensures |r| == if |items| < n then |items| else n
    ensures forall i :: 0 <= i < |r| ==> r[i] == items[|items| - 1 - i]
  {
    if items == [] || n == 0 then [] else [items[|items| - 1]] + NewestFirst(items[..|items| - 1], n - 1)
  }

  /** A codec law in use: a valid manifest written in a layout that fits is decoded again. */
  lemma DecodesBack(c: Codec, m: Manifest)
    requires Lawful(c) && Valid(c, m)
    ensures Decode(c, c.compact(m)) == Ok(m)
    ensures Fits(c, m) ==> Decode(c, SavedText(c, m)) == Ok(m) && c.isJson(SavedText(c, m))
    ensures |c.indent(m)| <= MAX_MANIFEST_BYTES ==> Decode(c, c.indent(m)) == Ok(m) && c.isJson(c.indent(m))
  {}
}
