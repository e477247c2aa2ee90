/** src/evidence/index.ts: evidence IDs from a location key, excerpt
    hashes, and the index from IDs to records.

    `crypto.createHash('sha256').update(s).digest('hex')` is the parameter
    `sha256`: any function from strings to strings. */
module Evidence {
  import opened Wrappers
  import opened Strings
  import opened Paths
  import opened Types

  /** The hex SHA-256 digest of a string. */
  type Hasher = string -> string

  /** The string form of an evidence kind. */
  function KindName(k: EvidenceKind): (r: string)
    ensures ':' !in r
  {
    match k
    case Code => "code"
    case ConfigKind => "config"
    case Doc => "doc"
  }

  /** `line || 0`: an absent line and line 0 both print as 0. */
  function LineOrZero(line: Option<int>): int {
    if line.Some? then line.value else 0
  }

  /** The key `path:start:end:kind` the ID is hashed from. */
  function EvidenceKey(item: RawEvidenceItem): string {
    item.path + ":" + IntToString(LineOrZero(item.startLine)) + ":"
      + IntToString(LineOrZero(item.endLine)) + ":" + KindName(item.kind)
  }

  /** `s.substring(0, n)` for `n >= 0`. */
  function Prefix(s: string, n: nat): (r: string)
    ensures |r| <= n && |r| <= |s| && r == s[..|r|]
    ensures |s| >= n ==> |r| == n
  {
    if |s| <= n then s else s[..n]
  }

  /** `generateEvidenceId`: `ev:` and the first 12 hex digits of the key's
      digest. */
  function GenerateEvidenceId(item: RawEvidenceItem, sha256: Hasher): (r: string)
    ensures |r| >= 3 && r[..3] == "ev:"
    ensures r[3..] == Prefix(sha256(EvidenceKey(item)), 12)
    ensures |sha256(EvidenceKey(item))| >= 12 ==> |r| == 15
  {
    "ev:" + Prefix(sha256(EvidenceKey(item)), 12)
  }

  /** A string is truthy when it is present and not empty. */
  predicate Truthy(s: Option<string>) {
    s.Some? && s.value != []
  }

  /** The `excerptHash` of the loop body. */
  function ExcerptHash(item: RawEvidenceItem, sha256: Hasher): Option<string> {
    var excerptHash := item.contentHash;
    if !Truthy(excerptHash) && (item.startLine.Some? || Truthy(item.snippet)) then
      if !Truthy(excerptHash) && Truthy(item.snippet) then Some(sha256(item.snippet.value))
      else excerptHash
    else excerptHash
  }

  /** The record the loop builds for one item. */
  function RecordOf(item: RawEvidenceItem, sha256: Hasher): EvidenceRecord {
    EvidenceRecord(item.path, item.kind, item.startLine, item.endLine, ExcerptHash(item, sha256))
  }

  /** `generateEvidenceId` with a fixed digest function. */
  function IdFor(sha256: Hasher): RawEvidenceItem -> string {
    item => GenerateEvidenceId(item, sha256)
  }

  /** The record construction with a fixed digest function. */
  function RecordFor(sha256: Hasher): RawEvidenceItem -> EvidenceRecord {
    item => RecordOf(item, sha256)
  }

  /** The index after a loop has visited `items`, writing `recordOf(item)`
      under `idOf(item)`, a later write replacing an earlier one. */
  function IndexWith(items: seq<RawEvidenceItem>, idOf: RawEvidenceItem -> string,
                     recordOf: RawEvidenceItem -> EvidenceRecord): EvidenceIndex {
    if items == [] then map[]
    else
      var last := items[|items| - 1];
      IndexWith(items[..|items| - 1], idOf, recordOf)[idOf(last) := recordOf(last)]
  }

  /** The index `resolveEvidence` builds from `items`. */
  function IndexOf(items: seq<RawEvidenceItem>, sha256: Hasher): EvidenceIndex {
    IndexWith(items, IdFor(sha256), RecordFor(sha256))
  }

  /** `resolveEvidence`. The snapshot argument is not used. */
  method ResolveEvidence(rawItems: seq<RawEvidenceItem>, snapshot: RepoSnapshot, sha256: Hasher)
    returns (index: EvidenceIndex)
    ensures index == IndexOf(rawItems, sha256)
  {
    index := map[];
    for i := 0 to |rawItems|
      invariant index == IndexOf(rawItems[..i], sha256)
    {
      var item := rawItems[i];
      assert rawItems[..i + 1][..i] == rawItems[..i];
      var id := GenerateEvidenceId(item, sha256);
      var excerptHash := item.contentHash;
      if !Truthy(excerptHash) && (item.startLine.Some? || Truthy(item.snippet)) {
        if !Truthy(excerptHash) && Truthy(item.snippet) {
          excerptHash := Some(sha256(item.snippet.value));
        }
      }
      var record := EvidenceRecord(item.path, item.kind, item.startLine, item.endLine, excerptHash);
      index := index[id := record];
    }
    assert rawItems[..|rawItems|] == rawItems;
  }

  // ---- properties ------------------------------------------------------------

  /** Splitting at the last `:`: the part after it has no `:`. */
  lemma SplitAtLastColon(x: string, y: string, x': string, y': string)
    requires ':' !in y && ':' !in y'
    requires x + ":" + y == x' + ":" + y'
    ensures x == x' && y == y'
  {
    LastIndexOfLast(x, ':', y);
    LastIndexOfLast(x', ':', y');
    assert x + ":" + y == x + [':'] + y;
    assert x' + ":" + y' == x' + [':'] + y';
    assert x == (x + ":" + y)[..|x|];
    assert x' == (x' + ":" + y')[..|x'|];
    assert y == (x + ":" + y)[|x| + 1..];
    assert y' == (x' + ":" + y')[|x'| + 1..];
  }

  lemma KindNameInjective(a: EvidenceKind, b: EvidenceKind)
    requires KindName(a) == KindName(b)
    ensures a == b
  {
  }

  /** The key determines path, both lines (absent read as 0) and kind: no
      two different locations share a key, because lines and kinds contain
      no `:` and the key can be read back from the right. */
  lemma EvidenceKeyInjective(a: RawEvidenceItem, b: RawEvidenceItem)
    requires EvidenceKey(a) == EvidenceKey(b)
    ensures a.path == b.path && a.kind == b.kind
    ensures LineOrZero(a.startLine) == LineOrZero(b.startLine)
    ensures LineOrZero(a.endLine) == LineOrZero(b.endLine)
  {
    var sa, ea := IntToString(LineOrZero(a.startLine)), IntToString(LineOrZero(a.endLine));
    var sb, eb := IntToString(LineOrZero(b.startLine)), IntToString(LineOrZero(b.endLine));
    SplitAtLastColon(a.path + ":" + sa + ":" + ea, KindName(a.kind), b.path + ":" + sb + ":" + eb, KindName(b.kind));
    SplitAtLastColon(a.path + ":" + sa, ea, b.path + ":" + sb, eb);
    SplitAtLastColon(a.path, sa, b.path, sb);
    KindNameInjective(a.kind, b.kind);
    IntToStringInjective(LineOrZero(a.startLine), LineOrZero(b.startLine));
    IntToStringInjective(LineOrZero(a.endLine), LineOrZero(b.endLine));
  }

  /** The ID depends on path, lines and kind only: snippet and content hash
      never change it, and an absent line counts as line 0. */
  lemma IdIgnoresContent(item: RawEvidenceItem, sha256: Hasher, contentHash: Option<string>, snippet: Option<string>)
    ensures GenerateEvidenceId(item.(contentHash := contentHash, snippet := snippet), sha256)
      == GenerateEvidenceId(item, sha256)
  {
  }

  lemma AbsentLineIsZero(item: RawEvidenceItem, sha256: Hasher)
    ensures GenerateEvidenceId(item.(startLine := None), sha256) == GenerateEvidenceId(item.(startLine := Some(0)), sha256)
    ensures GenerateEvidenceId(item.(endLine := None), sha256) == GenerateEvidenceId(item.(endLine := Some(0)), sha256)
  {
  }

  /** The excerpt hash: the content hash when it is truthy; otherwise the
      digest of a non-empty snippet; otherwise the content hash as given. */
  lemma ExcerptHashCases(item: RawEvidenceItem, sha256: Hasher)
    ensures Truthy(item.contentHash) ==> ExcerptHash(item, sha256) == item.contentHash
    ensures !Truthy(item.contentHash) && Truthy(item.snippet) ==>
      ExcerptHash(item, sha256) == Some(sha256(item.snippet.value))
    ensures !Truthy(item.contentHash) && !Truthy(item.snippet) ==> ExcerptHash(item, sha256) == item.contentHash
  {
  }

  /** Path, kind and both lines are copied from the item unchanged. */
  lemma RecordCopiesLocation(item: RawEvidenceItem, sha256: Hasher)
    ensures var r := RecordOf(item, sha256);
      r.path == item.path && r.kind == item.kind && r.startLine == item.startLine && r.endLine == item.endLine
  {
  }

  /** The index keys are exactly the IDs of the items. */
  lemma {:induction false} IndexWithKeys(items: seq<RawEvidenceItem>, idOf: RawEvidenceItem -> string,
                                         recordOf: RawEvidenceItem -> EvidenceRecord, id: string)
    ensures id in IndexWith(items, idOf, recordOf) <==> exists k :: 0 <= k < |items| && idOf(items[k]) == id
    decreases |items|
  {
    if items != [] {
      var init, last := items[..|items| - 1], items[|items| - 1];
      IndexWithKeys(init, idOf, recordOf, id);
      if id != idOf(last) {
        if id in IndexWith(init, idOf, recordOf) {
          var k :| 0 <= k < |init| && idOf(init[k]) == id;
          assert items[k] == init[k];
        }
        if exists k :: 0 <= k < |items| && idOf(items[k]) == id {
          var k :| 0 <= k < |items| && idOf(items[k]) == id;
          assert init[k] == items[k];
        }
      }
    }
  }

  lemma IndexKeys(items: seq<RawEvidenceItem>, sha256: Hasher, id: string)
    ensures id in IndexOf(items, sha256) <==> exists k :: 0 <= k < |items| && GenerateEvidenceId(items[k], sha256) == id
  {
    IndexWithKeys(items, IdFor(sha256), RecordFor(sha256), id);
  }

  /** The last writer wins: an item whose ID no later item shares has its
      own record in the index. */
  lemma {:induction false} IndexWithLastWriter(items: seq<RawEvidenceItem>, idOf: RawEvidenceItem -> string,
                                               recordOf: RawEvidenceItem -> EvidenceRecord, k: nat)
    requires k < |items|
    requires forall j :: k < j < |items| ==> idOf(items[j]) != idOf(items[k])
    ensures idOf(items[k]) in IndexWith(items, idOf, recordOf)
    ensures IndexWith(items, idOf, recordOf)[idOf(items[k])] == recordOf(items[k])
    decreases |items|
  {
    if k < |items| - 1 {
      var init := items[..|items| - 1];
      assert forall j :: k < j < |init| ==> init[j] == items[j];
      IndexWithLastWriter(init, idOf, recordOf, k);
    }
  }

  lemma LastWriterWins(items: seq<RawEvidenceItem>, sha256: Hasher, k: nat)
    requires k < |items|
    requires forall j :: k < j < |items| ==> GenerateEvidenceId(items[j], sha256) != GenerateEvidenceId(items[k], sha256)
    ensures GenerateEvidenceId(items[k], sha256) in IndexOf(items, sha256)
    ensures IndexOf(items, sha256)[GenerateEvidenceId(items[k], sha256)] == RecordOf(items[k], sha256)
  {
    IndexWithLastWriter(items, IdFor(sha256), RecordFor(sha256), k);
  }

  /** The index never has more entries than there are items. */
  lemma {:induction false} IndexWithSize(items: seq<RawEvidenceItem>, idOf: RawEvidenceItem -> string,
                                         recordOf: RawEvidenceItem -> EvidenceRecord)
    ensures |IndexWith(items, idOf, recordOf)| <= |items|
    decreases |items|
  {
    if items != [] {
      var init := items[..|items| - 1];
      IndexWithSize(init, idOf, recordOf);
      var m := IndexWith(init, idOf, recordOf);
      var id := idOf(items[|items| - 1]);
      assert m[id := recordOf(items[|items| - 1])].Keys == m.Keys + {id};
      assert |m.Keys + {id}| <= |m.Keys| + 1;
    }
  }

  lemma IndexSize(items: seq<RawEvidenceItem>, sha256: Hasher)
    ensures |IndexOf(items, sha256)| <= |items|
  {
    IndexWithSize(items, IdFor(sha256), RecordFor(sha256));
  }
}
