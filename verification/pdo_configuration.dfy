/** Configuring a mapping from outside: switched off, written word by word, switched on with its
    count. The manager accepts the sequence exactly if the mapping is safe. */
module PdoConfiguration {
  import opened Bytes
  import opened Wrappers
  import opened ObjectDictionary
  import opened Pdo
  import opened PdoSafety

  /** A download to one subindex of a mapping object. */
  datatype Download = Download(sub: nat, value: nat)

  function Downloads(words: seq<nat>): (d: seq<Download>)
    ensures |d| == |words|
  {
    seq(|words|, i requires 0 <= i < |words| => Download(i + 1, words[i]))
  }

  function MappingDownloads(words: seq<nat>): seq<Download> {
    [Download(0, 0)] + Downloads(words) + [Download(0, |words|)]
  }

  predicate Sendable(words: seq<nat>) {
    |words| <= MAX_MAPPINGS && forall i :: 0 <= i < |words| ==> words[i] < 0x1_0000_0000
  }

  // ----- the manager's side

  predicate Addressed(d: Download) {
    if d.sub == 0 then d.value < 0x100 else d.sub <= MAX_MAPPINGS && d.value < 0x1_0000_0000
  }

  function Apply(p: Manager, d: Direction, ch: Channel, download: Download, hooks: Hooks): (r: (AbortCode, Manager))
    requires Configured(p.od) && Addressed(download)
    ensures Configured(r.1.od)
  {
    if download.sub == 0 then OdWrite(p, MapKey(d, ch, 0), [ByteOf(download.value)], hooks)
    else OdWrite(p, MapKey(d, ch, download.sub), PutSize32(download.value), hooks)
  }

  /** The downloads in order, up to the first that is refused. */
  function ApplyAll(p: Manager, d: Direction, ch: Channel, downloads: seq<Download>, hooks: Hooks)
    : (r: (AbortCode, Manager))
    requires Configured(p.od) && forall i :: 0 <= i < |downloads| ==> Addressed(downloads[i])
    decreases |downloads|
  {
    if downloads == [] then (NoAbort, p)
    else
      var (code, p') := Apply(p, d, ch, downloads[0], hooks);
      if code != NoAbort then (code, p') else ApplyAll(p', d, ch, downloads[1..], hooks)
  }

  /** Nothing but the mapping of one channel, and the revision, has changed. */
  ghost predicate SameElsewhere(p: Manager, p': Manager, d: Direction, ch: Channel) {
    && p' == p.(od := p'.od, revision := p'.revision)
    && p'.od.entries == p.od.entries && p'.od.bigEndian == p.od.bigEndian
    && forall key :: key in p.od.storage && key.index != MapKey(d, ch, 0).index ==>
         key in p'.od.storage && p'.od.storage[key] == p.od.storage[key]
  }

  lemma ApplySameElsewhere(p: Manager, d: Direction, ch: Channel, download: Download, hooks: Hooks)
    requires Configured(p.od) && Addressed(download)
    ensures SameElsewhere(p, Apply(p, d, ch, download, hooks).1, d, ch)
  {
    hide ManagerHooks, Configured, ByteOf, PutSize32;
  }

  lemma {:induction false} ApplyAllSameElsewhere(p: Manager, d: Direction, ch: Channel, downloads: seq<Download>,
      hooks: Hooks)
    requires Configured(p.od) && forall i :: 0 <= i < |downloads| ==> Addressed(downloads[i])
    ensures SameElsewhere(p, ApplyAll(p, d, ch, downloads, hooks).1, d, ch)
    decreases |downloads|
  {
    hide Apply, Configured, Addressed;
    if downloads == [] {
    } else {
      ApplySameElsewhere(p, d, ch, downloads[0], hooks);
      var (code, p') := Apply(p, d, ch, downloads[0], hooks);
      if code == NoAbort {
        ApplyAllSameElsewhere(p', d, ch, downloads[1..], hooks);
      }
    }
  }

  /** What a download does to a manager in its invariant. */
  lemma CountDownload(p: Manager, d: Direction, ch: Channel, n: nat, hooks: Hooks)
    requires Inv(p) && n <= MAX_MAPPINGS
    ensures var (code, p') := Apply(p, d, ch, Download(0, n), hooks);
      && Inv(p') && p'.od.entries == p.od.entries && p'.fd == p.fd
      && code == ValidateWords(p.od.entries, Words(p.od, d, ch, n), d, p.fd)
      && (code == NoAbort ==> Count(p'.od, d, ch) == n && Words(p'.od, d, ch, n) == Words(p.od, d, ch, n))
  {
    var key, source := MapKey(d, ch, 0), [ByteOf(n)];
    OdWriteKeepsInv(p, key, source, hooks);
    WriteKeepsEntries(p, key, source, hooks);
    GuardedWrite(p, key, source, hooks);
    KeyReadsBack(d, ch, 0);
    CountWrite(p.od, p.fd, d, ch, source);
    hide Inv, Configured, ValidateConfig, ValidateWords, Words, Count;
    if OdWrite(p, key, source, hooks).0 == NoAbort {
      CountAfterWrite(p, key, source, hooks, d, ch);
      WordsAfterWrite(p, key, source, hooks, d, ch, n);
    }
  }

  lemma CountWrite(od: Od, fd: bool, d: Direction, ch: Channel, source: seq<byte>)
    requires Configured(od) && |source| == 1 && source[0] as int <= MAX_MAPPINGS
    ensures Hooked(MapKey(d, ch, 0)) && ConfigSize(MapKey(d, ch, 0)) == Some(1)
    ensures ValidateConfig(od, fd, MapKey(d, ch, 0), source)
        == ValidateWords(od.entries, Words(od, d, ch, source[0] as int), d, fd)
  {
    KeyReadsBack(d, ch, 0);
    hide Configured, ValidateWords, Words;
  }

  /** A write that fits a guarded entry is decided by the guard. */
  lemma GuardedWrite(p: Manager, key: OdKey, source: seq<byte>, hooks: Hooks)
    requires Configured(p.od) && Hooked(key) && |source| == ConfigSize(key).value
    ensures OdWrite(p, key, source, hooks).0 == ValidateConfig(p.od, p.fd, key, source)
  {
    hide ValidateConfig;
  }

  lemma WordDownload(p: Manager, d: Direction, ch: Channel, i: nat, w: nat, hooks: Hooks)
    requires Inv(p) && Count(p.od, d, ch) == 0 && i < MAX_MAPPINGS && w < 0x1_0000_0000
    ensures var (code, p') := Apply(p, d, ch, Download(i + 1, w), hooks);
      && Inv(p') && p'.od.entries == p.od.entries && p'.fd == p.fd
      && code == ValidateWord(p.od.entries, w, d)
      && (code == NoAbort ==> Count(p'.od, d, ch) == 0 && Words(p'.od, d, ch, i + 1) == Words(p.od, d, ch, i) + [w])
  {
    var key, source := MapKey(d, ch, i + 1), PutSize32(w);
    OdWriteKeepsInv(p, key, source, hooks);
    WriteKeepsEntries(p, key, source, hooks);
    WordWrite(p.od, p.fd, d, ch, i, source);
    GuardedWrite(p, key, source, hooks);
    hide Inv, Configured, ValidateConfig, ValidateWord, Words, Word, Count, OdWrite, Hooked, IsConfig;
    if OdWrite(p, key, source, hooks).0 == NoAbort {
      CountAfterWrite(p, key, source, hooks, d, ch);
      WordsWithWord(p, d, ch, i, source, hooks);
    }
  }

  lemma WordWrite(od: Od, fd: bool, d: Direction, ch: Channel, i: nat, source: seq<byte>)
    requires Configured(od) && Count(od, d, ch) == 0 && i < MAX_MAPPINGS && |source| == 4
    ensures Hooked(MapKey(d, ch, i + 1)) && ConfigSize(MapKey(d, ch, i + 1)) == Some(4)
    ensures ValidateConfig(od, fd, MapKey(d, ch, i + 1), source) == ValidateWord(od.entries, GetSize32(source), d)
  {
    KeyReadsBack(d, ch, i + 1);
    hide Configured, ValidateWord, Count, GetSize32;
  }

  lemma WordsWithWord(p: Manager, d: Direction, ch: Channel, i: nat, source: seq<byte>, hooks: Hooks)
    requires Configured(p.od) && i < MAX_MAPPINGS && |source| == 4
    requires OdWrite(p, MapKey(d, ch, i + 1), source, hooks).0 == NoAbort
    ensures Words(OdWrite(p, MapKey(d, ch, i + 1), source, hooks).1.od, d, ch, i + 1)
         == Words(p.od, d, ch, i) + [GetSize32(source)]
  {
    hide Configured, GetSize32, Write, ManagerHooks;
    var p' := OdWrite(p, MapKey(d, ch, i + 1), source, hooks).1;
    forall j | 0 <= j <= i
      ensures Word(p'.od, d, ch, j) == if j == i then GetSize32(source) else Word(p.od, d, ch, j)
    {
      assert IsConfig(MapKey(d, ch, j + 1));
      FieldAfterWrite(p.od, MapKey(d, ch, i + 1), source, ManagerHooks(p.od, p.fd, hooks), MapKey(d, ch, j + 1));
    }
  }

  lemma AllAddressed(words: seq<nat>)
    requires Sendable(words)
    ensures forall i :: 0 <= i < |MappingDownloads(words)| ==> Addressed(MappingDownloads(words)[i])
  {
  }

  lemma ApplySplit(p: Manager, d: Direction, ch: Channel, a: Download, rest: seq<Download>, hooks: Hooks)
    requires Configured(p.od) && Addressed(a) && forall i :: 0 <= i < |rest| ==> Addressed(rest[i])
    ensures forall i :: 0 <= i < |[a] + rest| ==> Addressed(([a] + rest)[i])
    ensures var (code, p') := Apply(p, d, ch, a, hooks);
      ApplyAll(p, d, ch, [a] + rest, hooks) == if code != NoAbort then (code, p') else ApplyAll(p', d, ch, rest, hooks)
  {
    assert ([a] + rest)[1..] == rest;
    hide Apply, Configured;
  }

  /** The words from the i-th on and the count, with the earlier words already in place. */
  lemma {:induction false} RemainingDownloads(p: Manager, d: Direction, ch: Channel, words: seq<nat>, i: nat,
      hooks: Hooks)
    requires Inv(p) && Sendable(words) && i <= |words|
    requires Count(p.od, d, ch) == 0 && Words(p.od, d, ch, i) == words[..i]
    requires forall j :: 0 <= j < i ==> Mappable(p.od.entries, words[j], d)
    ensures var rest := Downloads(words)[i..] + [Download(0, |words|)];
      && (forall j :: 0 <= j < |rest| ==> Addressed(rest[j]))
      && var (code, p') := ApplyAll(p, d, ch, rest, hooks);
         && Inv(p') && p'.od.entries == p.od.entries
         && (code == NoAbort <==> MappingSafe(p.od.entries, words, d, p.fd))
         && (code == NoAbort ==> Count(p'.od, d, ch) == |words| && Words(p'.od, d, ch, |words|) == words)
    decreases |words| - i
  {
    hide Inv, Configured, ValidateWord, Mappable, Words, Count, Apply, ValidateWords, TotalBits;
    var last := Download(0, |words|);
    AllAddressed(words);
    InvConfigured(p);
    if i == |words| {
      ApplySplit(p, d, ch, last, [], hooks);
      CountDownload(p, d, ch, |words|, hooks);
      assert words[..i] == words && Downloads(words)[i..] + [last] == [last] + [];
      ValidateWordsExactly(p.od.entries, words, d, p.fd);
    } else {
      var first := Download(i + 1, words[i]);
      var rest := Downloads(words)[i + 1..] + [last];
      assert Downloads(words)[i..] + [last] == [first] + rest;
      forall j | 0 <= j < |rest| ensures Addressed(rest[j]) {
      }
      ApplySplit(p, d, ch, first, rest, hooks);
      WordDownload(p, d, ch, i, words[i], hooks);
      ValidateWordExactly(p.od.entries, words[i], d);
      var (code, p') := Apply(p, d, ch, first, hooks);
      if code == NoAbort {
        assert words[..i + 1] == words[..i] + [words[i]];
        RemainingDownloads(p', d, ch, words, i + 1, hooks);
      }
    }
  }

  lemma InvConfigured(p: Manager)
    requires Inv(p)
    ensures Configured(p.od)
  {
  }

  /** The whole sequence is accepted exactly if the words are mappable and fit a frame together; then
      exactly they are in force. Refused or not, the manager stays safe. */
  lemma ConfigurationTakesEffect(p: Manager, d: Direction, ch: Channel, words: seq<nat>, hooks: Hooks)
    requires Inv(p) && Sendable(words)
    ensures Configured(p.od) && forall j :: 0 <= j < |MappingDownloads(words)| ==> Addressed(MappingDownloads(words)[j])
    ensures var (code, p') := ApplyAll(p, d, ch, MappingDownloads(words), hooks);
      && Inv(p') && SameElsewhere(p, p', d, ch)
      && (code == NoAbort <==> MappingSafe(p.od.entries, words, d, p.fd))
      && (code == NoAbort ==>
            && Count(p'.od, d, ch) == |words| && Words(p'.od, d, ch, |words|) == words
            && MappingOf(p'.od, d, ch) == Decode(words))
  {
    hide Inv, Configured, ValidateWord, Words, Count, Apply, ValidateWords, MappingSafe, Decode, SameElsewhere;
    AllAddressed(words);
    InvConfigured(p);
    ApplyAllSameElsewhere(p, d, ch, MappingDownloads(words), hooks);
    var rest := Downloads(words)[0..] + [Download(0, |words|)];
    assert MappingDownloads(words) == [Download(0, 0)] + rest;
    ApplySplit(p, d, ch, Download(0, 0), rest, hooks);
    CountDownload(p, d, ch, 0, hooks);
    NoWordsAreSafe(p.od.entries, d, p.fd);
    NoWords(p.od, d, ch);
    ValidateWordsExactly(p.od.entries, [], d, p.fd);
    var p' := Apply(p, d, ch, Download(0, 0), hooks).1;
    NoWords(p'.od, d, ch);
    RemainingDownloads(p', d, ch, words, 0, hooks);
  }

  lemma NoWords(od: Od, d: Direction, ch: Channel)
    requires Configured(od)
    ensures Words(od, d, ch, 0) == []
  {
  }
}
