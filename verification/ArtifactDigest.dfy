/** The byte stream whose hash identifies the built client artifacts. */
module ArtifactDigest {
  import opened ByteStrings
  import opened Decimal
  import opened Wrappers

  /** An artifact's path, as bytes, and its content. */
  datatype Artifact = Artifact(path: Bytes, content: Bytes)

  datatype DigestError = NoArtifacts

  /** A length prefix: a decimal number and a colon. */
  function Prefix(n: nat): Bytes {
    NumeralAscii(n);
    Ascii(Numeral(n)) + [58]
  }

  function Entry(a: Artifact): Bytes {
    Prefix(|a.path|) + a.path + Prefix(|a.content|) + a.content
  }

  function Stream(artifacts: seq<Artifact>): Bytes {
    if artifacts == [] then [] else Stream(artifacts[..|artifacts| - 1]) + Entry(artifacts[|artifacts| - 1])
  }

  /** The bytes fed to the hash, and the number of artifacts; a build without artifacts is refused. */
  method ClientArtifactStream(artifacts: seq<Artifact>) returns (r: Result<(nat, Bytes), DigestError>)
    ensures r.Err? <==> artifacts == []
    ensures r.Ok? ==> r.value == (|artifacts|, Stream(artifacts))
  {
    if artifacts == [] {
      return Err(NoArtifacts);
    }
    var digest: Bytes := [];
    for i := 0 to |artifacts|
      invariant digest == Stream(artifacts[..i])
    {
      var a := artifacts[i];
      digest := digest + Prefix(|a.path|);
      digest := digest + a.path;
      digest := digest + Prefix(|a.content|);
      digest := digest + a.content;
      assert artifacts[..i + 1][..i] == artifacts[..i];
      assert digest == Stream(artifacts[..i]) + Entry(a);
    }
    assert artifacts[..|artifacts|] == artifacts;
    r := Ok((|artifacts|, digest));
  }

  // ---------- Reading a stream back ----------

  function ReadDigits(b: Bytes, soFar: nat): (r: Option<(nat, Bytes)>)
    ensures r.Some? ==> |r.value.1| < |b|
  {
    if b == [] then None
    else if b[0] == 58 then Some((soFar, b[1..]))
    else if 48 <= b[0] <= 57 then ReadDigits(b[1..], 10 * soFar + (b[0] as int - 48))
    else None
  }

  /** The number before the first colon, and what follows the colon. */
  function ReadPrefix(b: Bytes): Option<(nat, Bytes)> {
    ReadDigits(b, 0)
  }

  function ReadField(b: Bytes): (r: Option<(Bytes, Bytes)>)
    ensures r.Some? ==> |r.value.1| < |b|
  {
    match ReadPrefix(b)
    case Some((n, rest)) => if n <= |rest| then Some((rest[..n], rest[n..])) else None
    case None => None
  }

  /** The artifacts a stream lists, if it is one. */
  function Decode(b: Bytes): Option<seq<Artifact>>
    decreases |b|
  {
    if b == [] then Some([])
    else match ReadField(b)
      case None => None
      case Some((path, mid)) =>
        match ReadField(mid)
        case None => None
        case Some((content, rest)) =>
          match Decode(rest)
          case None => None
          case Some(others) => Some([Artifact(path, content)] + others)
  }

  lemma {:induction false} DigitsReadBack(d: string, soFar: nat, rest: Bytes)
    requires (forall c :: c in d ==> IsDigit(c)) && IsAscii(d)
    ensures ReadDigits(Ascii(d) + [58] + rest, soFar) == Some((Fold(d, soFar), rest))
  {
    var b := Ascii(d) + [58] + rest;
    if d == [] {
      assert b[1..] == rest;
    } else {
      assert d[0] in d;
      DigitsReadBack(d[1..], 10 * soFar + DigitOf(d[0]), rest);
      assert b[1..] == Ascii(d[1..]) + [58] + rest;
    }
  }

  lemma FieldReadsBack(field: Bytes, rest: Bytes)
    ensures ReadField(Prefix(|field|) + field + rest) == Some((field, rest))
  {
    NumeralAscii(|field|);
    DigitsReadBack(Numeral(|field|), 0, field + rest);
    FoldIsValue(Numeral(|field|));
    NumeralValue(|field|);
    assert Prefix(|field|) + field + rest == Ascii(Numeral(|field|)) + [58] + (field + rest);
  }

  lemma {:induction false} StreamPrepend(first: Artifact, others: seq<Artifact>)
    ensures Stream([first] + others) == Entry(first) + Stream(others)
  {
    hide Entry;
    var all := [first] + others;
    if others == [] {
      assert all == [first] && all[..0] == [];
    } else {
      var rest, last := others[..|others| - 1], others[|others| - 1];
      assert all[..|all| - 1] == [first] + rest && all[|all| - 1] == last;
      StreamPrepend(first, rest);
      assert Entry(first) + Stream(rest) + Entry(last) == Entry(first) + (Stream(rest) + Entry(last));
    }
  }

  lemma PrefixNonEmpty(n: nat)
    ensures Prefix(n) != []
  {
  }

  lemma EntryReadsBack(first: Artifact, rest: Bytes)
    ensures Entry(first) + rest != [] && ReadField(Entry(first) + rest).Some?
    ensures var (path, mid) := ReadField(Entry(first) + rest).value;
            path == first.path && ReadField(mid) == Some((first.content, rest))
  {
    hide ReadField, Prefix;
    var after := Prefix(|first.content|) + first.content + rest;
    FieldReadsBack(first.path, after);
    FieldReadsBack(first.content, rest);
    assert Entry(first) + rest == Prefix(|first.path|) + first.path + after;
    PrefixNonEmpty(|first.path|);
  }

  /** A stream decodes to the artifacts it was made from, whatever bytes their paths and contents hold. */
  lemma {:induction false} DecodeStream(artifacts: seq<Artifact>)
    ensures Decode(Stream(artifacts)) == Some(artifacts)
  {
    if artifacts != [] {
      var first, others := artifacts[0], artifacts[1..];
      assert artifacts == [first] + others;
      StreamPrepend(first, others);
      DecodeStream(others);
      hide Entry, Stream;
      EntryReadsBack(first, Stream(others));
    }
  }

  /** The stream determines the artifacts: different artifacts never feed the hash the same bytes. */
  lemma StreamInjective(a: seq<Artifact>, b: seq<Artifact>)
    requires Stream(a) == Stream(b)
    ensures a == b
  {
    DecodeStream(a);
    DecodeStream(b);
  }

  /** What a build record keeps of the artifacts. */
  datatype DigestRecord = DigestRecord(fileCount: nat, hash: string)

  ghost function RecordOf(hash: Bytes -> string, artifacts: seq<Artifact>): DigestRecord {
    DigestRecord(|artifacts|, hash(Stream(artifacts)))
  }

  /** Changed artifacts that still match a build record are a collision of the hash on two different byte strings. */
  lemma UnnoticedChangeIsCollision(hash: Bytes -> string, a: seq<Artifact>, b: seq<Artifact>)
    requires RecordOf(hash, a) == RecordOf(hash, b) && a != b
    ensures Stream(a) != Stream(b) && hash(Stream(a)) == hash(Stream(b))
  {
    if Stream(a) == Stream(b) { StreamInjective(a, b); }
  }
}
