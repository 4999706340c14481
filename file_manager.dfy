/**
 The file manager object: the collection of uploaded local files, the cards
 of the rendered file list, the warnings shown to the user, and the progress
 display. One class stands for both variants: with `enhanced` false it is the
 basic manager, whose uploads are simulated; with `enhanced` true it is the
 cloud-enabled manager, whose uploads are delegated to the cloud service.
 */
module Manager {
  import opened Wrappers
  import opened Text
  import opened Records
  import opened Progress
  import opened FileList

  const CompleteText: string := "Upload complete!"

  class FileManager {
    /** Which variant this is: the cloud-enabled one overrides the single-file upload. */
    const enhanced: bool

    /** `this.files` */
    var files: seq<LocalFile>
    /** The cards of the file list, in document order. */
    var cards: seq<Card>
    /** Every warning shown so far, in order. */
    var alerts: seq<Alert>
    /** Whether the progress bar is shown, its width in percent, and its text. */
    var progressVisible: bool
    var percent: real
    var status: string
    /** Every percentage the progress bar has been set to, in order. */
    ghost var reported: seq<real>

    /**
     The cards of local files show the last entries of the collection, in
     order. Collection and cards are equal until the first delete; after it
     the collection holds extra copies at its front, never fewer entries.
     */
    ghost predicate Valid()
      reads this
    {
      IsSuffix(LocalFiles(cards), files)
    }

    /** A fresh manager: no files, no cards, the progress bar hidden. The width 0 and the
        empty text are the initial state of the page markup; the script itself does not set them. */
    constructor (enhanced: bool)
      ensures Valid()
      ensures this.enhanced == enhanced
      ensures files == [] && cards == [] && alerts == []
      ensures !progressVisible && percent == 0.0 && status == "" && reported == []
    {
      this.enhanced := enhanced;
      files, cards, alerts := [], [], [];
      progressVisible, percent, status := false, 0.0, "";
      reported := [];
    }

    /** `updateProgress(percent, text)` */
    method UpdateProgress(p: real, text: string)
      modifies this
      ensures percent == p && status == text && reported == old(reported) + [p]
      ensures progressVisible == old(progressVisible)
      ensures files == old(files) && cards == old(cards) && alerts == old(alerts)
    {
      percent, status := p, text;
      reported := reported + [p];
    }

    /** `showProgress()` */
    method ShowProgress()
      modifies this
      ensures progressVisible
      ensures percent == old(percent) && status == old(status) && reported == old(reported)
      ensures files == old(files) && cards == old(cards) && alerts == old(alerts)
    {
      progressVisible := true;
    }

    /** `hideProgress()`, with its one-second delay already elapsed. */
    method HideProgress()
      modifies this
      ensures !progressVisible && percent == 0.0 && status == CompleteText
      ensures reported == old(reported) + [0.0]
      ensures files == old(files) && cards == old(cards) && alerts == old(alerts)
    {
      progressVisible := false;
      UpdateProgress(0.0, CompleteText);
    }

    /** `addFileToList(file)`: append a card and push the file onto the collection. */
    method AddFileToList(file: LocalFile)
      requires Valid()
      modifies this
      ensures Valid()
      ensures files == old(files) + [file]
      ensures cards == old(cards) + [LocalCard(file)]
      ensures alerts == old(alerts)
      ensures progressVisible == old(progressVisible) && percent == old(percent)
      ensures status == old(status) && reported == old(reported)
    {
      LocalCardKeepsSuffix(cards, files, file);
      cards := cards + [LocalCard(file)];
      files := files + [file];
    }

    /** `addCloudFileToList(file)`: append a cloud card; the collection is not touched. */
    method AddCloudFileToList(file: CloudFile)
      requires Valid()
      requires enhanced
      modifies this
      ensures Valid()
      ensures cards == old(cards) + [CloudCard(file)]
      ensures files == old(files) && alerts == old(alerts)
      ensures progressVisible == old(progressVisible) && percent == old(percent)
      ensures status == old(status) && reported == old(reported)
    {
      CloudCardAddsNoFile(cards, file);
      cards := cards + [CloudCard(file)];
    }

    /** The picker's completion callback: a cloud card for each file it returns. */
    method OnUploadDone(result: seq<CloudFile>)
      requires Valid()
      requires enhanced
      modifies this
      ensures Valid()
      ensures cards == old(cards) + PickedCards(result)
      ensures files == old(files) && alerts == old(alerts)
      ensures progressVisible == old(progressVisible) && percent == old(percent)
      ensures status == old(status) && reported == old(reported)
    {
      for i := 0 to |result|
        invariant Valid()
        invariant cards == old(cards) + PickedCards(result[..i])
        invariant files == old(files) && alerts == old(alerts)
        invariant progressVisible == old(progressVisible) && percent == old(percent)
        invariant status == old(status) && reported == old(reported)
      {
        AddCloudFileToList(result[i]);
        assert PickedCards(result[..i + 1]) == PickedCards(result[..i]) + [CloudCard(result[i])];
      }
      assert result[..|result|] == result;
    }

    /**
     The simulated `uploadSingleFile(file, current, total)`: on every tick the
     progress grows by the next increment; the tick on which it reaches 100
     sets it to 100, appends the file and ends the upload. Every tick reports
     the overall progress. Returns the position in the tick stream after the
     last tick used, and whether the file finished before the stream ran out.
     */
    method UploadSingleFile(file: LocalFile, current: nat, total: nat, ticks: seq<Tick>, start: nat)
      returns (next: nat, done: bool)
      requires Valid()
      requires 1 <= current <= total
      requires start <= |ticks|
      requires !enhanced
      modifies this
      ensures Valid()
      ensures (next, done) == Finish(ticks, start, start)
      ensures files == old(files) + (if done then [file] else [])
      ensures cards == old(cards) + (if done then [LocalCard(file)] else [])
      ensures alerts == old(alerts) && progressVisible == old(progressVisible)
      ensures reported == old(reported) + TickReports(current, total, ticks, start, next)
      ensures next > start ==> status == StatusText(current, total) && percent == reported[|reported| - 1]
      ensures next == start ==> percent == old(percent) && status == old(status)
    {
      ghost var files0, cards0, reported0, percent0, status0 := files, cards, reported, percent, status;
      var progress: real := 0.0;
      var k := start;
      done := false;
      while !done && k < |ticks|
        invariant Ticking(file, current, total, ticks, start, k, progress, done,
                          files0, cards0, reported0, percent0, status0)
        invariant alerts == old(alerts) && progressVisible == old(progressVisible)
        decreases |ticks| - k
      {
        progress, done := TickNext(file, current, total, ticks, start, k, progress,
                                   files0, cards0, reported0, percent0, status0);
        k := k + 1;
      }
      next := k;
    }

    /** The state of the simulated upload after the ticks before position `k`. */
    ghost predicate Ticking(file: LocalFile, current: nat, total: nat, ticks: seq<Tick>,
                            start: nat, k: nat, progress: real, done: bool,
                            files0: seq<LocalFile>, cards0: seq<Card>, reported0: seq<real>,
                            percent0: real, status0: string)
      reads this
    {
      && 1 <= current <= total
      && start <= k <= |ticks|
      && Valid()
      && (!done ==> progress == Accumulated(ticks, start, k) && Finish(ticks, start, start) == Finish(ticks, start, k))
      && (done ==> Finish(ticks, start, start) == (k, true))
      && files == files0 + (if done then [file] else [])
      && cards == cards0 + (if done then [LocalCard(file)] else [])
      && reported == reported0 + TickReports(current, total, ticks, start, k)
      && (k > start ==> status == StatusText(current, total) && percent == reported[|reported| - 1])
      && (k == start ==> percent == percent0 && status == status0)
    }

    /** One iteration of the simulated upload: the tick at position `k`. */
    method TickNext(file: LocalFile, current: nat, total: nat, ticks: seq<Tick>, start: nat, k: nat,
                    progress: real, ghost files0: seq<LocalFile>, ghost cards0: seq<Card>,
                    ghost reported0: seq<real>, ghost percent0: real, ghost status0: string)
      returns (p: real, reached: bool)
      requires 1 <= current <= total && k < |ticks|
      requires Ticking(file, current, total, ticks, start, k, progress, false,
                       files0, cards0, reported0, percent0, status0)
      modifies this
      ensures Ticking(file, current, total, ticks, start, k + 1, p, reached,
                      files0, cards0, reported0, percent0, status0)
      ensures alerts == old(alerts) && progressVisible == old(progressVisible)
    {
      TickStep(current, total, ticks, start, k);
      ghost var earlier := TickReports(current, total, ticks, start, k);
      p, reached := OnTick(file, current, total, progress, ticks[k]);
      ghost var shown := OverallProgress(current, total, p);
      assert TickReports(current, total, ticks, start, k + 1) == earlier + [shown];
      assert reported == reported0 + (earlier + [shown]);
    }

    /**
     The timer callback of the simulated upload: add the increment; once the
     progress reaches 100, set it to 100 and append the file; then report the
     overall progress. Returns the new progress and whether it reached 100.
     */
    method OnTick(file: LocalFile, current: nat, total: nat, progress: real, increment: Tick)
      returns (p: real, reached: bool)
      requires Valid()
      requires 1 <= current <= total
      modifies this
      ensures Valid()
      ensures reached == (progress + increment >= Full) && p == Clamp(progress + increment)
      ensures files == old(files) + (if reached then [file] else [])
      ensures cards == old(cards) + (if reached then [LocalCard(file)] else [])
      ensures alerts == old(alerts) && progressVisible == old(progressVisible)
      ensures reported == old(reported) + [OverallProgress(current, total, p)]
      ensures percent == OverallProgress(current, total, p) && status == StatusText(current, total)
    {
      p := progress + increment;
      reached := false;
      if p >= Full {
        p := Full;
        AddFileToList(file);
        reached := true;
      }
      UpdateProgress(OverallProgress(current, total, p), StatusText(current, total));
    }

    /**
     The cloud `uploadSingleFile(file, current, total)`: a successful upload
     appends one cloud card named after the file, with its size and the
     returned URL; a failed one is caught, warned about, and not rethrown, so
     the batch goes on.
     */
    method UploadSingleFileCloud(file: LocalFile, outcome: Outcome)
      requires Valid()
      requires enhanced
      modifies this
      ensures Valid()
      ensures cards == old(cards) + CloudResult(file, outcome)
      ensures alerts == old(alerts) + FailureAlert(file, outcome)
      ensures files == old(files)
      ensures progressVisible == old(progressVisible) && percent == old(percent)
      ensures status == old(status) && reported == old(reported)
    {
      match outcome
      case Uploaded(url) =>
        AddCloudFileToList(CloudFile(file.name, file.size, url, None));
      case Failed =>
        alerts := alerts + [UploadFailed(file.name)];
    }

    /**
     `uploadFiles(files)`: show the progress bar, upload the files one after
     the other, each to completion before the next starts, and hide the bar
     when all are done. Returns whether the batch ran to its end within the
     supplied environment; a batch that has not is still waiting on its
     current file, and the bar stays up.
     */
    method UploadFiles(batch: seq<LocalFile>, env: Environment) returns (finished: bool)
      requires Valid()
      modifies this
      ensures Valid()
      ensures finished == Finished(enhanced, batch, env)
      ensures files == old(files) + NewFiles(enhanced, batch, env)
      ensures cards == old(cards) + NewCards(enhanced, batch, env)
      ensures alerts == old(alerts) + NewAlerts(enhanced, batch, env)
      ensures progressVisible == !finished
      ensures finished ==> percent == 0.0 && status == CompleteText
      ensures var m, e := |old(reported)|, |reported| - (if finished then 1 else 0);
              && m <= e
              && reported[..m] == old(reported)
              && Sorted(reported[m..e])
              && Between(reported[m..e], 0.0, Full)
              && (enhanced ==> e == m)
              && (!enhanced && finished && batch != [] ==> e > m && reported[e - 1] == Full)
              && (finished ==> reported[|reported| - 1] == 0.0)
    {
      ShowProgress();
      if enhanced {
        finished := UploadEachDelegated(batch, env.outcomes);
      } else {
        finished := UploadEachSimulated(batch, env.ticks);
      }
      ghost var during := reported;
      if finished {
        HideProgress();
        assert reported[..|during|] == during;
        assert reported[|old(reported)|..|during|] == during[|old(reported)|..];
      }
    }

    /**
     The loop of `uploadFiles` with the simulated `uploadSingleFile`: the
     files in order, each from the tick after the last one the previous file
     used, until one has not reached 100 when the ticks run out.
     */
    method UploadEachSimulated(batch: seq<LocalFile>, ticks: seq<Tick>) returns (finished: bool)
      requires Valid()
      requires !enhanced
      modifies this
      ensures Valid()
      ensures var c := Completed(ticks, 0, |batch|);
              && finished == (c == |batch|)
              && files == old(files) + batch[..c]
              && cards == old(cards) + LocalCards(batch[..c])
      ensures alerts == old(alerts) && progressVisible == old(progressVisible)
      ensures var m := |old(reported)|;
              && m <= |reported|
              && reported[..m] == old(reported)
              && Sorted(reported[m..]) && Between(reported[m..], 0.0, Full)
              && (m < |reported| ==> percent == reported[|reported| - 1])
              && (finished && batch != [] ==> m < |reported| && reported[|reported| - 1] == Full)
    {
      ghost var files0, cards0, reported0 := files, cards, reported;
      var i: nat, pos: nat := 0, 0;
      finished := true;
      while i < |batch|
        invariant Uploading(batch, ticks, i, pos, files0, cards0, reported0)
        invariant alerts == old(alerts) && progressVisible == old(progressVisible)
        decreases |batch| - i
      {
        var next, done := UploadNext(batch, ticks, i, pos, files0, cards0, reported0);
        if !done {
          // this file's progress has not reached 100 yet
          finished := false;
          break;
        }
        pos := next;
        i := i + 1;
      }
      if finished {
        assert batch[..|batch|] == batch;
        if |batch| > 0 {
          OverallAtEnd(|batch|);
        }
        AllUploaded(batch, ticks, pos, files0, cards0, reported0);
      }
    }

    /**
     Where a simulated batch stands after `i` finished files, the next one
     starting at tick `pos`: the finished files and their cards appended, the
     reports so far in order, and the progress bar on the last one.
     */
    ghost predicate Uploading(batch: seq<LocalFile>, ticks: seq<Tick>, i: nat, pos: nat,
                              files0: seq<LocalFile>, cards0: seq<Card>, reported0: seq<real>)
      reads this
    {
      && i <= |batch| && pos <= |ticks|
      && Valid()
      && files == files0 + batch[..i]
      && cards == cards0 + LocalCards(batch[..i])
      && Completed(ticks, 0, |batch|) == i + Completed(ticks, pos, |batch| - i)
      && |reported0| <= |reported| && reported[..|reported0|] == reported0
      && BatchReports(reported, |reported0|, i, |batch|)
      && (|reported0| < |reported| ==> percent == reported[|reported| - 1])
    }

    /** Where a simulated batch stands once `c` files have finished and no more will. */
    ghost predicate Stopped(batch: seq<LocalFile>, ticks: seq<Tick>, c: nat,
                            files0: seq<LocalFile>, cards0: seq<Card>, reported0: seq<real>)
      reads this
    {
      && c == Completed(ticks, 0, |batch|)
      && Valid()
      && files == files0 + batch[..c]
      && cards == cards0 + LocalCards(batch[..c])
      && |reported0| <= |reported| && reported[..|reported0|] == reported0
      && Sorted(reported[|reported0|..]) && Between(reported[|reported0|..], 0.0, Full)
      && (|reported0| < |reported| ==> percent == reported[|reported| - 1])
    }

    /** Once every file has finished, the batch has stopped with all of them. */
    lemma AllUploaded(batch: seq<LocalFile>, ticks: seq<Tick>, pos: nat,
                      files0: seq<LocalFile>, cards0: seq<Card>, reported0: seq<real>)
      requires Uploading(batch, ticks, |batch|, pos, files0, cards0, reported0)
      ensures Stopped(batch, ticks, |batch|, files0, cards0, reported0)
      ensures batch != [] ==>
                |reported0| < |reported| && reported[|reported| - 1] == OverallProgress(|batch|, |batch|, Full)
    {
    }

    /** One turn of the simulated loop: upload file `i + 1` from tick `pos` on. */
    method UploadNext(batch: seq<LocalFile>, ticks: seq<Tick>, i: nat, pos: nat,
                      ghost files0: seq<LocalFile>, ghost cards0: seq<Card>, ghost reported0: seq<real>)
      returns (next: nat, done: bool)
      requires i < |batch|
      requires Uploading(batch, ticks, i, pos, files0, cards0, reported0)
      requires !enhanced
      modifies this
      ensures alerts == old(alerts) && progressVisible == old(progressVisible)
      ensures done ==> Uploading(batch, ticks, i + 1, next, files0, cards0, reported0)
      ensures !done ==> Stopped(batch, ticks, i, files0, cards0, reported0)
    {
      ghost var before := reported;
      var total := |batch|;
      next, done := UploadSingleFile(batch[i], i + 1, total, ticks, pos);
      ReportsStayOrdered(before, |reported0|, i, total, ticks, pos, next);
      CompletedStep(ticks, pos, total - i);
      if done {
        LocalStep(batch, i);
      }
    }

    /**
     The loop of `uploadFiles` with the delegated `uploadSingleFile`: the
     files in order, each settled with its outcome, until the outcomes run out.
     */
    method UploadEachDelegated(batch: seq<LocalFile>, outcomes: seq<Outcome>) returns (finished: bool)
      requires Valid()
      requires enhanced
      modifies this
      ensures Valid()
      ensures var n := if |batch| <= |outcomes| then |batch| else |outcomes|;
              && finished == (n == |batch|)
              && cards == old(cards) + CloudCards(batch[..n], outcomes)
              && alerts == old(alerts) + FailureAlerts(batch[..n], outcomes)
      ensures files == old(files)
      ensures progressVisible == old(progressVisible) && percent == old(percent)
      ensures status == old(status) && reported == old(reported)
    {
      ghost var cards0, alerts0 := cards, alerts;
      var i := 0;
      // past the last outcome, the delegated upload of file i + 1 has not settled yet
      while i < |batch| && i < |outcomes|
        invariant Delegating(batch, outcomes, i, cards0, alerts0)
        invariant files == old(files)
        invariant progressVisible == old(progressVisible) && percent == old(percent)
        invariant status == old(status) && reported == old(reported)
      {
        SettleNext(batch, outcomes, i, cards0, alerts0);
        i := i + 1;
      }
      assert Delegating(batch, outcomes, i, cards0, alerts0);
      assert i == if |batch| <= |outcomes| then |batch| else |outcomes|;
      finished := i == |batch|;
    }

    /** One turn of the cloud loop: upload file `i + 1` and settle it with its outcome. */
    method SettleNext(batch: seq<LocalFile>, outcomes: seq<Outcome>, i: nat,
                      ghost cards0: seq<Card>, ghost alerts0: seq<Alert>)
      requires enhanced
      requires i < |batch| && i < |outcomes|
      requires Delegating(batch, outcomes, i, cards0, alerts0)
      modifies this
      ensures Delegating(batch, outcomes, i + 1, cards0, alerts0)
      ensures files == old(files)
      ensures progressVisible == old(progressVisible) && percent == old(percent)
      ensures status == old(status) && reported == old(reported)
    {
      ghost var doneCards, doneAlerts := CloudCards(batch[..i], outcomes), FailureAlerts(batch[..i], outcomes);
      UploadSingleFileCloud(batch[i], outcomes[i]);
      CloudStep(batch, outcomes, i);
      ghost var r, w := CloudResult(batch[i], outcomes[i]), FailureAlert(batch[i], outcomes[i]);
      assert cards == cards0 + (doneCards + r);
      assert alerts == alerts0 + (doneAlerts + w);
    }

    /** Where a cloud batch stands once `i` of its files have settled. */
    ghost predicate Delegating(batch: seq<LocalFile>, outcomes: seq<Outcome>, i: nat,
                               cards0: seq<Card>, alerts0: seq<Alert>)
      reads this
    {
      && i <= |batch| && i <= |outcomes|
      && Valid()
      && cards == cards0 + CloudCards(batch[..i], outcomes)
      && alerts == alerts0 + FailureAlerts(batch[..i], outcomes)
    }

    /** The reports of file `i + 1` continue the batch's reports in order and within [0, 100]. */
    static lemma ReportsStayOrdered(before: seq<real>, base: nat, i: nat, total: nat,
                                    ticks: seq<Tick>, pos: nat, next: nat)
      requires i < total && pos <= next <= |ticks|
      requires BatchReports(before, base, i, total)
      ensures var after := before + TickReports(i + 1, total, ticks, pos, next);
              && after[..base] == before[..base]
              && Sorted(after[base..]) && Between(after[base..], 0.0, Full)
              && (Finish(ticks, pos, pos) == (next, true) ==> BatchReports(after, base, i + 1, total))
    {
      var r := TickReports(i + 1, total, ticks, pos, next);
      TickReportsShape(i + 1, total, ticks, pos, next);
      FinishIsFirstReach(ticks, pos, pos);
      var lo, hi := OverallProgress(i + 1, total, 0.0), OverallProgress(i + 1, total, Full);
      OverallBounded(i + 1, total, 0.0);
      OverallBounded(i + 1, total, Full);
      if i > 0 {
        OverallAtCompletion(i, total);
      }
      RunsJoin(before, base, r, lo, hi);
    }

    /** A sorted run ending on `lo`, followed by a sorted run within [lo, hi]. */
    static lemma RunsJoin(before: seq<real>, base: nat, r: seq<real>, lo: real, hi: real)
      requires base <= |before|
      requires Sorted(before[base..]) && Between(before[base..], 0.0, Full)
      requires |before| > base ==> before[|before| - 1] == lo
      requires Sorted(r) && Between(r, lo, hi)
      requires 0.0 <= lo && hi <= Full
      ensures (before + r)[..base] == before[..base]
      ensures Sorted((before + r)[base..]) && Between((before + r)[base..], 0.0, Full)
    {
      var a := before[base..];
      assert (before + r)[base..] == a + r;
      forall k | 0 <= k < |a|
        ensures a[k] <= lo
      {
        assert a[k] <= a[|a| - 1];
      }
      SortedConcat(a, r, lo);
      BetweenConcat(a, r, 0.0, Full);
    }

    /**
     `handleFiles(fileList)`: warn about every file above the limit and, when
     at least one file is left, start a batch with the others in their order.
     */
    method HandleFiles(fileList: seq<LocalFile>, env: Environment)
      requires Valid()
      modifies this
      ensures Valid()
      ensures files == old(files) + NewFiles(enhanced, Accepted(fileList), env)
      ensures cards == old(cards) + NewCards(enhanced, Accepted(fileList), env)
      ensures alerts == old(alerts) + TooLargeAlerts(fileList) + NewAlerts(enhanced, Accepted(fileList), env)
      ensures Accepted(fileList) == [] ==>
                progressVisible == old(progressVisible) && percent == old(percent) &&
                status == old(status) && reported == old(reported)
      ensures Accepted(fileList) != [] ==>
                progressVisible == !Finished(enhanced, Accepted(fileList), env) &&
                (Finished(enhanced, Accepted(fileList), env) ==> percent == 0.0 && status == CompleteText)
    {
      var valid: seq<LocalFile> := [];
      for i := 0 to |fileList|
        invariant valid == Accepted(fileList[..i])
        invariant alerts == old(alerts) + TooLargeAlerts(fileList[..i])
        invariant files == old(files) && cards == old(cards)
        invariant progressVisible == old(progressVisible) && percent == old(percent)
        invariant status == old(status) && reported == old(reported)
      {
        assert fileList[..i + 1][..i] == fileList[..i];
        var file := fileList[i];
        if file.size > MaxFileSize {
          alerts := alerts + [TooLarge(file.name)];
        } else {
          valid := valid + [file];
        }
      }
      assert fileList[..|fileList|] == fileList;
      if |valid| > 0 {
        var finished := UploadFiles(valid, env);
      } else {
        EmptyBatch(enhanced, env);
      }
    }

    /**
     `deleteFile(fileName)`: keep the entries with another name, clear the
     list, and render the kept entries again through `addFileToList`, which
     pushes each of them onto the collection a second time.
     */
    method DeleteFile(fileName: string)
      requires Valid()
      modifies this
      ensures Valid()
      ensures files == Without(old(files), fileName) + Without(old(files), fileName)
      ensures cards == LocalCards(Without(old(files), fileName))
      ensures alerts == old(alerts)
      ensures progressVisible == old(progressVisible) && percent == old(percent)
      ensures status == old(status) && reported == old(reported)
    {
      files := Without(files, fileName);
      cards := [];
      var kept := files;
      // `forEach` visits the entries present when it starts; the pushes land after them
      for i := 0 to |kept|
        invariant files == kept + kept[..i]
        invariant cards == LocalCards(kept[..i])
        invariant Valid()
        invariant alerts == old(alerts)
        invariant progressVisible == old(progressVisible) && percent == old(percent)
        invariant status == old(status) && reported == old(reported)
      {
        AddFileToList(kept[i]);
        assert kept[..i + 1] == kept[..i] + [kept[i]];
        assert LocalCards(kept[..i + 1]) == LocalCards(kept[..i]) + [LocalCard(kept[i])];
      }
      assert kept[..|kept|] == kept;
    }

    /** `filterFiles(query)`: show each card whose name contains the query, ignoring case. */
    method FilterFiles(query: string)
      requires Valid()
      requires enhanced
      modifies this
      ensures Valid()
      ensures cards == Filtered(old(cards), query)
      ensures files == old(files) && alerts == old(alerts)
      ensures progressVisible == old(progressVisible) && percent == old(percent)
      ensures status == old(status) && reported == old(reported)
    {
      var q := Lower(query);
      ghost var shown := Filtered(old(cards), query);
      for i := 0 to |cards|
        invariant |cards| == |old(cards)| == |shown|
        invariant forall j :: 0 <= j < i ==> cards[j] == shown[j]
        invariant forall j :: i <= j < |cards| ==> cards[j] == old(cards)[j]
        invariant files == old(files) && alerts == old(alerts)
        invariant progressVisible == old(progressVisible) && percent == old(percent)
        invariant status == old(status) && reported == old(reported)
      {
        var name := Lower(Title(cards[i]));
        assert shown[i] == cards[i].(visible := Contains(name, q));
        cards := cards[i := cards[i].(visible := Contains(name, q))];
      }
      assert cards == shown;
      LocalFilesFiltered(old(cards), query);
    }
  }
}
