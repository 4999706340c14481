/**
 The values the file manager keeps and the pure functions over them: size
 validation, the cards of the file list, deletion by name, the search filter,
 and the cards and warnings an upload batch produces.
 */
module FileList {
  import opened Wrappers
  import opened Text
  import opened Records
  import opened MimeTypes
  import opened SizeFormat
  import opened Progress

  /** The largest accepted file: 100 MiB. */
  const MaxFileSize: nat := 100 * 1024 * 1024

  /** The size check of `handleFiles`: a file is refused only when strictly larger. */
  predicate WithinLimit(f: LocalFile)
  {
    !(f.size > MaxFileSize)
  }

  /** A user-visible warning (`alert`). */
  datatype Alert = TooLarge(name: string) | UploadFailed(name: string)

  function Message(a: Alert): string
  {
    match a
    case TooLarge(name) => name + " is too large. Maximum size is 100MB."
    case UploadFailed(name) => "Failed to upload " + name + ". Please try again."
  }

  /** Every warning names the file it is about. */
  lemma MessageNamesFile(a: Alert)
    ensures Contains(Message(a), a.name)
  {
    var m := Message(a);
    match a
    case TooLarge(name) =>
      assert m[..|name|] == name;
      ContainsAt(m, name, 0);
    case UploadFailed(name) =>
      var lead := "Failed to upload ";
      assert m[|lead|..|lead| + |name|] == name;
      ContainsAt(m, name, |lead|);
  }

  /** How a delegated cloud upload settles: resolved with the stored file's URL, or rejected. */
  datatype Outcome = Uploaded(url: string) | Failed

  /**
   What the world supplies to an upload batch: the random increments of the
   simulated upload, one per timer tick, and the outcomes of the delegated
   uploads, one per file. A stream shorter than needed stands for a batch
   that is still running.
   */
  datatype Environment = Environment(ticks: seq<Tick>, outcomes: seq<Outcome>)

  /** What a card shows: a local file, or a file held by the cloud service. */
  datatype Entry = Local(local: LocalFile) | Cloud(cloud: CloudFile)

  /** One card of the file list; `visible` is false when the search filter hides it. */
  datatype Card = Card(entry: Entry, visible: bool)

  /** The text of the card's name heading, which the search filter reads back (file names
      are taken to hold no HTML markup, so the heading reads back as the name). */
  function Title(c: Card): string
  {
    match c.entry
    case Local(f) => f.name
    case Cloud(f) => f.filename
  }

  /** The icon glyph of a card. */
  function CardIcon(c: Card): string
  {
    match c.entry
    case Local(f) => Glyph(FileIcon(f.mimeType))
    case Cloud(_) => "☁️"
  }

  /** The size line of a card. */
  function CardSize(c: Card): string
  {
    match c.entry
    case Local(f) => FormatFileSize(f.size)
    case Cloud(f) => FormatFileSize(f.size) + " • Cloud Storage"
  }

  /**
   A card shows where its file is kept: the cloud glyph, and a size line
   ending in " • Cloud Storage", exactly for a cloud card.
   */
  lemma CardShowsKind(c: Card)
    ensures CardIcon(c) == "☁️" <==> c.entry.Cloud?
    ensures EndsWith(CardSize(c), " • Cloud Storage") <==> c.entry.Cloud?
  {
    match c.entry
    case Local(f) =>
      FormatFileSizeEndsWithUnit(f.size);
    case Cloud(f) =>
  }

  /** The preview fragment of a card; local cards have none. */
  function CardPreview(c: Card): Preview
  {
    match c.entry
    case Local(_) => NoPreview
    case Cloud(f) => GeneratePreview(f)
  }

  /** The card `addFileToList` appends: new cards are shown. */
  function LocalCard(f: LocalFile): Card
  {
    Card(Local(f), true)
  }

  /** The card `addCloudFileToList` appends. */
  function CloudCard(f: CloudFile): Card
  {
    Card(Cloud(f), true)
  }

  /** The cards of a sequence of local files, rendered in order. */
  function LocalCards(fs: seq<LocalFile>): (cs: seq<Card>)
    ensures |cs| == |fs|
    ensures forall i :: 0 <= i < |fs| ==> cs[i] == LocalCard(fs[i])
  {
    seq(|fs|, i requires 0 <= i < |fs| => LocalCard(fs[i]))
  }

  /** The local files behind the cards, in card order; cloud cards contribute nothing. */
  function LocalFiles(cs: seq<Card>): seq<LocalFile>
  {
    if cs == [] then []
    else LocalFiles(cs[..|cs| - 1]) + (match cs[|cs| - 1].entry
                                        case Local(f) => [f]
                                        case Cloud(_) => [])
  }

  lemma {:induction false} LocalFilesAppend(a: seq<Card>, b: seq<Card>)
    ensures LocalFiles(a + b) == LocalFiles(a) + LocalFiles(b)
    decreases |b|
  {
    if b == [] {
      assert a + b == a;
    } else {
      assert (a + b)[..|a + b| - 1] == a + b[..|b| - 1];
      LocalFilesAppend(a, b[..|b| - 1]);
    }
  }

  /** Rendering files as cards and reading the files back gives the files. */
  lemma {:induction false} LocalFilesOfLocalCards(fs: seq<LocalFile>)
    ensures LocalFiles(LocalCards(fs)) == fs
    decreases |fs|
  {
    if fs != [] {
      var n := |fs| - 1;
      assert LocalCards(fs)[..n] == LocalCards(fs[..n]);
      LocalFilesOfLocalCards(fs[..n]);
      assert fs == fs[..n] + [fs[n]];
    }
  }

  /** `a` is a suffix of `b`. */
  predicate IsSuffix<T(==)>(a: seq<T>, b: seq<T>)
  {
    |a| <= |b| && b[|b| - |a|..] == a
  }

  lemma SuffixAppend<T>(a: seq<T>, b: seq<T>, c: seq<T>)
    requires IsSuffix(a, b)
    ensures IsSuffix(a + c, b + c)
  {
    assert (b + c)[|b + c| - |a + c|..] == b[|b| - |a|..] + c;
  }

  /** Appending a file's card and the file keeps the cards' files a suffix of the collection. */
  lemma LocalCardKeepsSuffix(cs: seq<Card>, fs: seq<LocalFile>, f: LocalFile)
    requires IsSuffix(LocalFiles(cs), fs)
    ensures IsSuffix(LocalFiles(cs + [LocalCard(f)]), fs + [f])
  {
    LocalFilesAppend(cs, [LocalCard(f)]);
    assert LocalFiles([LocalCard(f)]) == [f];
    SuffixAppend(LocalFiles(cs), fs, [f]);
  }

  /** A cloud card adds no file. */
  lemma CloudCardAddsNoFile(cs: seq<Card>, f: CloudFile)
    ensures LocalFiles(cs + [CloudCard(f)]) == LocalFiles(cs)
  {
    LocalFilesAppend(cs, [CloudCard(f)]);
    assert [CloudCard(f)][..0] == [];
  }

  // ----- handleFiles -----

  /** The files `handleFiles` keeps, in their original order. */
  function Accepted(fs: seq<LocalFile>): seq<LocalFile>
  {
    if fs == [] then []
    else Accepted(fs[..|fs| - 1]) + (if WithinLimit(fs[|fs| - 1]) then [fs[|fs| - 1]] else [])
  }

  /** One warning per refused file, in the order of the files. */
  function TooLargeAlerts(fs: seq<LocalFile>): seq<Alert>
  {
    if fs == [] then []
    else TooLargeAlerts(fs[..|fs| - 1])
         + (if WithinLimit(fs[|fs| - 1]) then [] else [TooLarge(fs[|fs| - 1].name)])
  }

  /** Validation of two selections one after the other is validation of both together. */
  lemma {:induction false} AcceptedAppend(a: seq<LocalFile>, b: seq<LocalFile>)
    ensures Accepted(a + b) == Accepted(a) + Accepted(b)
    ensures TooLargeAlerts(a + b) == TooLargeAlerts(a) + TooLargeAlerts(b)
    decreases |b|
  {
    if b == [] {
      assert a + b == a;
    } else {
      assert (a + b)[..|a + b| - 1] == a + b[..|b| - 1];
      AcceptedAppend(a, b[..|b| - 1]);
    }
  }

  /** Exactly the files within the limit are kept; nothing is added. */
  lemma {:induction false} AcceptedMembers(fs: seq<LocalFile>, f: LocalFile)
    ensures f in Accepted(fs) <==> f in fs && f.size <= MaxFileSize
    decreases |fs|
  {
    if fs != [] {
      AcceptedMembers(fs[..|fs| - 1], f);
      assert fs == fs[..|fs| - 1] + [fs[|fs| - 1]];
    }
  }

  /** Every file is either kept or warned about, never both. */
  lemma {:induction false} AcceptedOrWarned(fs: seq<LocalFile>)
    ensures |Accepted(fs)| + |TooLargeAlerts(fs)| == |fs|
    ensures Accepted(fs) == fs <==> TooLargeAlerts(fs) == []
    decreases |fs|
  {
    if fs != [] {
      var n := |fs| - 1;
      AcceptedOrWarned(fs[..n]);
      if Accepted(fs) == fs {
        assert |Accepted(fs[..n])| <= n;
      }
      if TooLargeAlerts(fs) == [] {
        assert fs == fs[..n] + [fs[n]];
      }
    }
  }

  /** A warning is shown exactly for a refused file of the selection, and names that file. */
  lemma {:induction false} TooLargeAlertsName(fs: seq<LocalFile>, a: Alert)
    ensures a in TooLargeAlerts(fs) <==> exists f :: f in fs && f.size > MaxFileSize && a == TooLarge(f.name)
    decreases |fs|
  {
    if fs != [] {
      TooLargeAlertsName(fs[..|fs| - 1], a);
      assert fs == fs[..|fs| - 1] + [fs[|fs| - 1]];
    }
  }

  /** The limit is inclusive: a file of exactly 104,857,600 bytes is kept, one byte more is not. */
  lemma LimitIsInclusive(name: string, mimeType: string)
    ensures Accepted([LocalFile(name, 104857600, mimeType)]) == [LocalFile(name, 104857600, mimeType)]
    ensures Accepted([LocalFile(name, 104857601, mimeType)]) == []
    ensures TooLargeAlerts([LocalFile(name, 104857601, mimeType)]) == [TooLarge(name)]
  {
    var ok, big := [LocalFile(name, 104857600, mimeType)], [LocalFile(name, 104857601, mimeType)];
    assert ok[..0] == [] && big[..0] == [];
  }

  // ----- deleteFile -----

  /** `files.filter((f) => f.name !== fileName)` */
  function Without(fs: seq<LocalFile>, name: string): seq<LocalFile>
  {
    if fs == [] then []
    else Without(fs[..|fs| - 1], name) + (if fs[|fs| - 1].name != name then [fs[|fs| - 1]] else [])
  }

  lemma {:induction false} WithoutAppend(a: seq<LocalFile>, b: seq<LocalFile>, name: string)
    ensures Without(a + b, name) == Without(a, name) + Without(b, name)
    decreases |b|
  {
    if b == [] {
      assert a + b == a;
    } else {
      assert (a + b)[..|a + b| - 1] == a + b[..|b| - 1];
      WithoutAppend(a, b[..|b| - 1], name);
    }
  }

  /** Every entry with the name goes, not only the first; every other entry stays. */
  lemma {:induction false} WithoutMembers(fs: seq<LocalFile>, name: string, f: LocalFile)
    ensures f in Without(fs, name) <==> f in fs && f.name != name
    decreases |fs|
  {
    if fs != [] {
      WithoutMembers(fs[..|fs| - 1], name, f);
      assert fs == fs[..|fs| - 1] + [fs[|fs| - 1]];
    }
  }

  /** Deleting a name no entry has keeps the entries as they are. */
  lemma {:induction false} WithoutAbsent(fs: seq<LocalFile>, name: string)
    requires forall i :: 0 <= i < |fs| ==> fs[i].name != name
    ensures Without(fs, name) == fs
    decreases |fs|
  {
    if fs != [] {
      WithoutAbsent(fs[..|fs| - 1], name);
      assert fs == fs[..|fs| - 1] + [fs[|fs| - 1]];
    }
  }

  /** Filtering only drops entries: the result is a sub-multiset of the entries. */
  lemma {:induction false} WithoutIsSubMultiset(fs: seq<LocalFile>, name: string)
    ensures |Without(fs, name)| <= |fs|
    ensures multiset(Without(fs, name)) <= multiset(fs)
    decreases |fs|
  {
    if fs != [] {
      WithoutIsSubMultiset(fs[..|fs| - 1], name);
      assert fs == fs[..|fs| - 1] + [fs[|fs| - 1]];
    }
  }

  /**
   What a second delete shows after the first has doubled the collection:
   each entry that survives both names is rendered twice.
   */
  lemma SecondDeleteDuplicates(fs: seq<LocalFile>, first: string, second: string)
    ensures var kept := Without(fs, first);
            Without(kept + kept, second) == Without(kept, second) + Without(kept, second)
  {
    var kept := Without(fs, first);
    WithoutAppend(kept, kept, second);
  }

  // ----- filterFiles -----

  /** The name test of `filterFiles`: case-insensitive substring. */
  predicate Matches(title: string, query: string)
  {
    Contains(Lower(title), Lower(query))
  }

  /** The cards after `filterFiles(query)`: each shown exactly when its name matches. */
  function Filtered(cs: seq<Card>, query: string): (r: seq<Card>)
    ensures |r| == |cs|
  {
    seq(|cs|, i requires 0 <= i < |cs| => cs[i].(visible := Matches(Title(cs[i]), query)))
  }

  /** A visible card matches, a hidden one does not, and the cards keep their order and content. */
  lemma FilteredShowsMatches(cs: seq<Card>, query: string)
    ensures forall i :: 0 <= i < |cs| ==>
              Filtered(cs, query)[i].entry == cs[i].entry &&
              (Filtered(cs, query)[i].visible <==> Matches(Title(cs[i]), query))
  {
  }

  /** An empty query shows every card. */
  lemma EmptyQueryShowsAll(cs: seq<Card>)
    ensures forall i :: 0 <= i < |cs| ==> Filtered(cs, "")[i].visible
  {
    forall i | 0 <= i < |cs|
      ensures Filtered(cs, "")[i].visible
    {
      ContainsEmpty(Lower(Title(cs[i])));
    }
  }

  /** The letter case of the query or of a name makes no difference. */
  lemma MatchIgnoresCase(title: string, query: string)
    ensures Matches(title, query) == Matches(title, Lower(query))
    ensures Matches(title, query) == Matches(Lower(title), query)
  {
    LowerIdempotent(query);
    LowerIdempotent(title);
  }

  /** Only the last query counts: filtering hides and shows, it never removes. */
  lemma FilterLastQueryWins(cs: seq<Card>, q1: string, q2: string)
    ensures Filtered(Filtered(cs, q1), q2) == Filtered(cs, q2)
  {
  }

  /** Filtering does not change which files the cards show. */
  lemma {:induction false} LocalFilesFiltered(cs: seq<Card>, query: string)
    ensures LocalFiles(Filtered(cs, query)) == LocalFiles(cs)
    decreases |cs|
  {
    if cs != [] {
      var n := |cs| - 1;
      assert Filtered(cs, query)[..n] == Filtered(cs[..n], query);
      LocalFilesFiltered(cs[..n], query);
    }
  }

  // ----- the cloud upload -----

  /** The cards one delegated upload appends: one cloud card on success, none on failure.
      The descriptor has no MIME type. */
  function CloudResult(file: LocalFile, outcome: Outcome): seq<Card>
  {
    match outcome
    case Uploaded(url) => [CloudCard(CloudFile(file.name, file.size, url, None))]
    case Failed => []
  }

  /** The warnings one delegated upload raises: one on failure. */
  function FailureAlert(file: LocalFile, outcome: Outcome): seq<Alert>
  {
    if outcome.Failed? then [UploadFailed(file.name)] else []
  }

  /** The cards of a sequence of delegated uploads, each settled with its outcome. */
  function CloudCards(batch: seq<LocalFile>, outcomes: seq<Outcome>): seq<Card>
    requires |batch| <= |outcomes|
  {
    if batch == [] then []
    else CloudCards(batch[..|batch| - 1], outcomes)
         + CloudResult(batch[|batch| - 1], outcomes[|batch| - 1])
  }

  /** The warnings of a sequence of delegated uploads. */
  function FailureAlerts(batch: seq<LocalFile>, outcomes: seq<Outcome>): seq<Alert>
    requires |batch| <= |outcomes|
  {
    if batch == [] then []
    else FailureAlerts(batch[..|batch| - 1], outcomes)
         + FailureAlert(batch[|batch| - 1], outcomes[|batch| - 1])
  }

  /** One more finished simulated upload appends its file and its card. */
  lemma LocalStep(batch: seq<LocalFile>, i: nat)
    requires i < |batch|
    ensures batch[..i + 1] == batch[..i] + [batch[i]]
    ensures LocalCards(batch[..i + 1]) == LocalCards(batch[..i]) + [LocalCard(batch[i])]
  {
    assert batch[..i + 1] == batch[..i] + [batch[i]];
  }

  /** One more settled upload appends its own card and warning. */
  lemma CloudStep(batch: seq<LocalFile>, outcomes: seq<Outcome>, i: nat)
    requires i < |batch| && i < |outcomes|
    ensures CloudCards(batch[..i + 1], outcomes) == CloudCards(batch[..i], outcomes) + CloudResult(batch[i], outcomes[i])
    ensures FailureAlerts(batch[..i + 1], outcomes) == FailureAlerts(batch[..i], outcomes) + FailureAlert(batch[i], outcomes[i])
  {
    assert batch[..i + 1][..i] == batch[..i];
  }

  /**
   A failure never stops the batch: every settled upload yields exactly one
   card or one warning, the cards are cloud cards without a preview, and no
   local file is added.
   */
  lemma {:induction false} CloudBatchAccounts(batch: seq<LocalFile>, outcomes: seq<Outcome>)
    requires |batch| <= |outcomes|
    ensures |CloudCards(batch, outcomes)| + |FailureAlerts(batch, outcomes)| == |batch|
    ensures forall c :: c in CloudCards(batch, outcomes) ==>
              c.entry.Cloud? && c.visible && CardPreview(c) == NoPreview
    ensures LocalFiles(CloudCards(batch, outcomes)) == []
    decreases |batch|
  {
    if batch != [] {
      var n := |batch| - 1;
      CloudBatchAccounts(batch[..n], outcomes);
      LocalFilesAppend(CloudCards(batch[..n], outcomes), CloudResult(batch[n], outcomes[n]));
      assert LocalFiles(CloudResult(batch[n], outcomes[n])) == [] by {
        var r := CloudResult(batch[n], outcomes[n]);
        if r != [] {
          assert r[..0] == [];
        }
      }
    }
  }

  /** A card exactly for each file whose upload resolved, with its name, size and returned URL. */
  lemma {:induction false} CloudCardsMembers(batch: seq<LocalFile>, outcomes: seq<Outcome>, c: Card)
    requires |batch| <= |outcomes|
    ensures c in CloudCards(batch, outcomes) <==>
              exists i :: 0 <= i < |batch| && outcomes[i].Uploaded? &&
                c == CloudCard(CloudFile(batch[i].name, batch[i].size, outcomes[i].url, None))
    decreases |batch|
  {
    if batch != [] {
      var n := |batch| - 1;
      CloudCardsMembers(batch[..n], outcomes, c);
      assert forall i :: 0 <= i < n ==> batch[..n][i] == batch[i];
      assert CloudCards(batch, outcomes) == CloudCards(batch[..n], outcomes) + CloudResult(batch[n], outcomes[n]);
    }
  }

  /** A warning naming the file exactly for each file whose upload was rejected. */
  lemma {:induction false} FailureAlertsMembers(batch: seq<LocalFile>, outcomes: seq<Outcome>, a: Alert)
    requires |batch| <= |outcomes|
    ensures a in FailureAlerts(batch, outcomes) <==>
              exists i :: 0 <= i < |batch| && outcomes[i].Failed? && a == UploadFailed(batch[i].name)
    decreases |batch|
  {
    if batch != [] {
      var n := |batch| - 1;
      FailureAlertsMembers(batch[..n], outcomes, a);
      assert forall i :: 0 <= i < n ==> batch[..n][i] == batch[i];
      assert FailureAlerts(batch, outcomes) == FailureAlerts(batch[..n], outcomes) + FailureAlert(batch[n], outcomes[n]);
    }
  }

  /** The cards the picker's completion callback appends, one per returned file. */
  function PickedCards(result: seq<CloudFile>): (cs: seq<Card>)
    ensures |cs| == |result|
    ensures forall i :: 0 <= i < |result| ==> cs[i] == CloudCard(result[i])
  {
    seq(|result|, i requires 0 <= i < |result| => CloudCard(result[i]))
  }

  // ----- what a whole batch does -----

  /** How many delegated uploads of the batch have settled. */
  function Settled(batch: seq<LocalFile>, env: Environment): (n: nat)
    ensures n <= |batch| && n <= |env.outcomes|
  {
    if |batch| <= |env.outcomes| then |batch| else |env.outcomes|
  }

  /** How many simulated uploads of the batch have reached 100. */
  function SimCompleted(batch: seq<LocalFile>, env: Environment): (n: nat)
    ensures n <= |batch|
  {
    Completed(env.ticks, 0, |batch|)
  }

  /** Whether the batch has run to its end. */
  predicate Finished(enhanced: bool, batch: seq<LocalFile>, env: Environment)
  {
    if enhanced then Settled(batch, env) == |batch| else SimCompleted(batch, env) == |batch|
  }

  /** The files a batch adds to the collection: the finished prefix of a simulated batch,
      nothing for a delegated one. */
  function NewFiles(enhanced: bool, batch: seq<LocalFile>, env: Environment): seq<LocalFile>
  {
    if enhanced then [] else batch[..SimCompleted(batch, env)]
  }

  /** The cards a batch appends. */
  function NewCards(enhanced: bool, batch: seq<LocalFile>, env: Environment): seq<Card>
  {
    if enhanced then CloudCards(batch[..Settled(batch, env)], env.outcomes)
    else LocalCards(batch[..SimCompleted(batch, env)])
  }

  /** The warnings a batch raises. */
  function NewAlerts(enhanced: bool, batch: seq<LocalFile>, env: Environment): seq<Alert>
  {
    if enhanced then FailureAlerts(batch[..Settled(batch, env)], env.outcomes) else []
  }

  /** An empty batch adds nothing. */
  lemma EmptyBatch(enhanced: bool, env: Environment)
    ensures NewFiles(enhanced, [], env) == [] && NewCards(enhanced, [], env) == []
    ensures NewAlerts(enhanced, [], env) == [] && Finished(enhanced, [], env)
  {
  }

  /**
   A simulated batch keeps the collection and the cards in step: the files it
   adds are a prefix of the batch, in order, and each has its card.
   */
  lemma SimulatedBatchInOrder(batch: seq<LocalFile>, env: Environment)
    ensures var added := NewFiles(false, batch, env);
            && |added| <= |batch| && added == batch[..|added|]
            && NewCards(false, batch, env) == LocalCards(added)
            && LocalFiles(NewCards(false, batch, env)) == added
            && (Finished(false, batch, env) <==> added == batch)
  {
    var added := NewFiles(false, batch, env);
    LocalFilesOfLocalCards(added);
  }
}
