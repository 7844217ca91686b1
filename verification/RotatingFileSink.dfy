/**
  `rotating_file_sink`: a log file that is shifted to numbered names when the
  next message would make it too large.  The reference is a list of files,
  newest first; a whole run is compared with a greedy split of its messages.
 */
module RotatingFileSinks {
  import opened FileNames

  /** The files of a file system by name. */
  type Directory = map<string, string>

  datatype File = Missing | Present(text: string)

  function FileAt(files: Directory, name: string): File {
    if name in files then Present(files[name]) else Missing
  }

  function TextOf(file: File): string {
    if file.Present? then file.text else ""
  }

  /** The log file and its numbered predecessors, newest first; some may be missing. */
  function Slots(files: Directory, base: string, maxFiles: nat): (slots: seq<File>)
    ensures |slots| == maxFiles + 1
  {
    seq(maxFiles + 1, i requires 0 <= i <= maxFiles => FileAt(files, CalcFilename(base, i)))
  }

  /** Files that do not belong to this log are left alone. */
  ghost predicate SameElsewhere(before: Directory, after: Directory, base: string, maxFiles: nat) {
    forall name :: (forall i :: 0 <= i <= maxFiles ==> name != CalcFilename(base, i)) ==>
      FileAt(after, name) == FileAt(before, name)
  }

  lemma OwnFile(before: Directory, after: Directory, base: string, maxFiles: nat, i: nat)
    requires i <= maxFiles
    requires forall name :: name != CalcFilename(base, i) ==> FileAt(after, name) == FileAt(before, name)
    ensures SameElsewhere(before, after, base, maxFiles)
    ensures Slots(after, base, maxFiles) == Slots(before, base, maxFiles)[i := FileAt(after, CalcFilename(base, i))]
  {
    forall j | 0 <= j <= maxFiles && j != i
      ensures CalcFilename(base, j) != CalcFilename(base, i)
    {
      if CalcFilename(base, j) == CalcFilename(base, i) {
        CalcFilenameInjective(base, j, i);
      }
    }
    hide CalcFilename, FileAt;
  }

  lemma ElsewhereTwice(a: Directory, b: Directory, c: Directory, base: string, maxFiles: nat)
    requires SameElsewhere(a, b, base, maxFiles) && SameElsewhere(b, c, base, maxFiles)
    ensures SameElsewhere(a, c, base, maxFiles)
  {
    hide CalcFilename, FileAt;
  }

  // ----- the reference -----

  /** Opening for append creates the log file if it is not there. */
  function Opened(slots: seq<File>): seq<File>
    requires slots != []
  {
    slots[0 := Present(TextOf(slots[0]))]
  }

  function Shifted(slots: seq<File>, newest: File): (r: seq<File>)
    requires slots != []
    ensures |r| == |slots|
  {
    [newest] + slots[..|slots| - 1]
  }

  function Delivered(slots: seq<File>, maxSize: nat, message: string): (r: seq<File>)
    requires slots != []
    ensures |r| == |slots|
  {
    if |TextOf(slots[0])| + |message| > maxSize then Shifted(slots, Present(message))
    else slots[0 := Present(TextOf(slots[0]) + message)]
  }

  function Run(slots: seq<File>, maxSize: nat, messages: seq<string>): (r: seq<File>)
    requires slots != []
    ensures |r| == |slots|
  {
    if messages == [] then slots
    else Delivered(Run(slots, maxSize, messages[..|messages| - 1]), maxSize, messages[|messages| - 1])
  }

  /** The step of the rotation that moves file i - 1 to the name of file i. */
  ghost predicate ShiftedFrom(before: seq<File>, after: seq<File>, i: nat) {
    && |after| == |before| && i < |before|
    && (forall j :: i < j < |before| ==> after[j] == before[j - 1])
    && (forall j :: 0 <= j < i ==> after[j] == before[j])
  }

  // ----- the sink -----

  class RotatingFileSink {
    const baseFilename: string
    const maxSize: nat
    const maxFiles: nat
    var currentSize: nat
    var files: Directory

    /** The sink's own count of the log file's size is right. */
    ghost predicate Valid()
      reads this
    {
      baseFilename in files && currentSize == |files[baseFilename]|
    }

    ghost function Contents(): (slots: seq<File>)
      reads this
      ensures |slots| == maxFiles + 1
    {
      Slots(files, baseFilename, maxFiles)
    }

    constructor (existing: Directory, baseFilename: string, maxSize: nat, maxFiles: nat)
      requires baseFilename != ""
      ensures this.baseFilename == baseFilename && this.maxSize == maxSize && this.maxFiles == maxFiles
      ensures Valid() && Contents() == Opened(Slots(existing, baseFilename, maxFiles))
      ensures files.Keys == existing.Keys + {baseFilename} && SameElsewhere(existing, files, baseFilename, maxFiles)
      ensures forall name :: name in existing ==> files[name] == existing[name]
      ensures baseFilename !in existing ==> files[baseFilename] == ""
    {
      this.baseFilename, this.maxSize, this.maxFiles := baseFilename, maxSize, maxFiles;
      var name := CalcFilename(baseFilename, 0);
      files := if name in existing then existing else existing[name := ""];
      currentSize := if name in existing then |existing[name]| else 0;
      new;
      OwnFile(existing, files, baseFilename, maxFiles, 0);
    }

    /** rotate_: moves every file one place up, drops the last one, starts the log file afresh. */
    method Rotate()
      requires baseFilename in files
      modifies this`files
      ensures Contents() == Shifted(old(Contents()), Present(""))
      ensures SameElsewhere(old(files), files, baseFilename, maxFiles)
      ensures baseFilename in files && files[baseFilename] == ""
    {
      var i: nat := maxFiles;
      while i > 0
        invariant i <= maxFiles
        invariant SameElsewhere(old(files), files, baseFilename, maxFiles)
        invariant ShiftedFrom(old(Contents()), Contents(), i)
      {
        var src := CalcFilename(baseFilename, i - 1);
        var target := CalcFilename(baseFilename, i);
        ghost var before := files;
        if target in files {
          files := files - {target};
        }
        ghost var removed := files;
        if src in files {
          var text := files[src];
          files := files - {src};
          files := files[target := text];
        }
        MovedUp(before, removed, files, baseFilename, maxFiles, i);
        ElsewhereTwice(old(files), before, files, baseFilename, maxFiles);
        ShiftOne(old(Contents()), Slots(before, baseFilename, maxFiles), Contents(), i);
        hide Slots, CalcFilename, SameElsewhere, ShiftedFrom;
        i := i - 1;
      }
      ghost var moved := files;
      files := files[baseFilename := ""];
      OwnFile(moved, files, baseFilename, maxFiles, 0);
      ElsewhereTwice(old(files), moved, files, baseFilename, maxFiles);
      hide SameElsewhere, Slots;
    }

    /** sink_it_, given the formatted message. */
    method SinkIt(formatted: string)
      requires Valid()
      modifies this
      ensures Valid() && Contents() == Delivered(old(Contents()), maxSize, formatted)
      ensures SameElsewhere(old(files), files, baseFilename, maxFiles)
    {
      currentSize := currentSize + |formatted|;
      LogFileIsFirst(files, baseFilename, maxFiles);
      if currentSize > maxSize {
        Rotate();
        currentSize := |formatted|;
        WrittenAfterShift(old(Contents()), formatted);
      } else {
        OwnFile(files, files, baseFilename, maxFiles, 0);
      }
      ghost var before := files;
      LogFileIsFirst(files, baseFilename, maxFiles);
      files := files[baseFilename := files[baseFilename] + formatted];
      OwnFile(before, files, baseFilename, maxFiles, 0);
      ElsewhereTwice(old(files), before, files, baseFilename, maxFiles);
      hide SameElsewhere, Slots, Shifted;
    }
  }

  lemma WrittenAfterShift(slots: seq<File>, message: string)
    requires slots != []
    ensures Shifted(slots, Present(""))[0] == Present("") && "" + message == message
    ensures Shifted(slots, Present(""))[0 := Present(message)] == Shifted(slots, Present(message))
  {
  }

  lemma LogFileIsFirst(files: Directory, base: string, maxFiles: nat)
    ensures Slots(files, base, maxFiles)[0] == FileAt(files, base)
  {
  }

  lemma MovedUp(before: Directory, removed: Directory, after: Directory, base: string, maxFiles: nat, i: nat)
    requires 0 < i <= maxFiles
    requires removed == before - {CalcFilename(base, i)}
    requires var src := CalcFilename(base, i - 1);
      after == if src in removed then (removed - {src})[CalcFilename(base, i) := removed[src]] else removed
    ensures SameElsewhere(before, after, base, maxFiles)
    ensures var slots := Slots(before, base, maxFiles);
      Slots(after, base, maxFiles) == slots[i := slots[i - 1]][i - 1 := Missing]
  {
    var src, target := CalcFilename(base, i - 1), CalcFilename(base, i);
    if src == target {
      CalcFilenameInjective(base, i - 1, i);
      assert false;
    }
    OwnFile(before, removed, base, maxFiles, i);
    var middle := removed - {src};
    OwnFile(removed, middle, base, maxFiles, i - 1);
    OwnFile(middle, after, base, maxFiles, i);
    ElsewhereTwice(before, removed, middle, base, maxFiles);
    ElsewhereTwice(before, middle, after, base, maxFiles);
    hide CalcFilename, SameElsewhere;
  }

  lemma ShiftOne(was: seq<File>, before: seq<File>, after: seq<File>, i: nat)
    requires 0 < i && ShiftedFrom(was, before, i) && after == before[i := before[i - 1]][i - 1 := Missing]
    ensures ShiftedFrom(was, after, i - 1)
  {
  }

  // ----- whole runs -----

  function Concat(texts: seq<string>): string {
    if texts == [] then "" else Concat(texts[..|texts| - 1]) + texts[|texts| - 1]
  }

  function Flatten(blocks: seq<seq<string>>): seq<string> {
    if blocks == [] then [] else Flatten(blocks[..|blocks| - 1]) + blocks[|blocks| - 1]
  }

  /** The size of the file that block k went to; block 0 continues a file of `size` characters. */
  function Load(blocks: seq<seq<string>>, size: nat, k: nat): nat
    requires k < |blocks|
  {
    (if k == 0 then size else 0) + |Concat(blocks[k])|
  }

  /** A file is exceeded only by a message of its own, and none is left while the next message fits. */
  ghost predicate Justified(blocks: seq<seq<string>>, size: nat, maxSize: nat, k: nat)
    requires k < |blocks|
  {
    if k == 0 then blocks[0] == [] || Load(blocks, size, 0) <= maxSize
    else
      && blocks[k] != [] && Load(blocks, size, k - 1) + |blocks[k][0]| > maxSize
      && (Load(blocks, size, k) <= maxSize || |blocks[k]| == 1)
  }

  ghost predicate Greedy(blocks: seq<seq<string>>, size: nat, maxSize: nat) {
    blocks != [] && forall k :: 0 <= k < |blocks| ==> Justified(blocks, size, maxSize, k)
  }

  /** The messages in order, cut into one block per file, greedily. */
  ghost predicate GreedySplit(blocks: seq<seq<string>>, size: nat, maxSize: nat, messages: seq<string>) {
    Flatten(blocks) == messages && Greedy(blocks, size, maxSize)
  }

  function AddTo(blocks: seq<seq<string>>, size: nat, maxSize: nat, message: string): (r: seq<seq<string>>)
    requires blocks != []
    ensures r != []
  {
    var last := |blocks| - 1;
    if Load(blocks, size, last) + |message| > maxSize then blocks + [[message]]
    else blocks[last := blocks[last] + [message]]
  }

  function Split(size: nat, maxSize: nat, messages: seq<string>): (blocks: seq<seq<string>>)
    ensures blocks != []
  {
    if messages == [] then [[]]
    else AddTo(Split(size, maxSize, messages[..|messages| - 1]), size, maxSize, messages[|messages| - 1])
  }

  lemma ConcatSnoc(texts: seq<string>, text: string)
    ensures Concat(texts + [text]) == Concat(texts) + text
  {
    assert (texts + [text])[..|texts|] == texts;
  }

  lemma ConcatOne(text: string)
    ensures Concat([text]) == text
  {
    assert Concat([]) == "";
  }

  lemma FlattenSnoc(blocks: seq<seq<string>>, block: seq<string>)
    ensures Flatten(blocks + [block]) == Flatten(blocks) + block
  {
    assert (blocks + [block])[..|blocks|] == blocks;
  }

  lemma FlattenLonger(blocks: seq<seq<string>>, message: string)
    requires blocks != []
    ensures var last := |blocks| - 1; Flatten(blocks[last := blocks[last] + [message]]) == Flatten(blocks) + [message]
  {
    var last := |blocks| - 1;
    assert blocks[last := blocks[last] + [message]][..last] == blocks[..last];
  }

  lemma JustifiedAlike(blocks: seq<seq<string>>, others: seq<seq<string>>, size: nat, maxSize: nat, k: nat)
    requires k < |blocks| && k < |others| && others[k] == blocks[k] && (k > 0 ==> others[k - 1] == blocks[k - 1])
    ensures Justified(others, size, maxSize, k) == Justified(blocks, size, maxSize, k)
  {
    hide Concat;
  }

  lemma GreedyNewBlock(blocks: seq<seq<string>>, size: nat, maxSize: nat, message: string)
    requires blocks != []
    ensures Greedy(blocks + [[message]], size, maxSize)
       <==> Greedy(blocks, size, maxSize) && Load(blocks, size, |blocks| - 1) + |message| > maxSize
  {
    var longer := blocks + [[message]];
    forall k | 0 <= k < |blocks|
      ensures Justified(longer, size, maxSize, k) == Justified(blocks, size, maxSize, k)
    {
      JustifiedAlike(blocks, longer, size, maxSize, k);
    }
    assert Justified(longer, size, maxSize, |blocks|) <==> Load(blocks, size, |blocks| - 1) + |message| > maxSize;
    hide Justified, Load;
  }

  lemma GreedyLongerBlock(blocks: seq<seq<string>>, size: nat, maxSize: nat, message: string)
    requires blocks != [] && (|blocks| > 1 ==> blocks[|blocks| - 1] != [])
    ensures var last := |blocks| - 1;
      Greedy(blocks[last := blocks[last] + [message]], size, maxSize)
      <==> Greedy(blocks, size, maxSize) && Load(blocks, size, last) + |message| <= maxSize
  {
    var last := |blocks| - 1;
    var longer := blocks[last := blocks[last] + [message]];
    forall k | 0 <= k < last
      ensures Justified(longer, size, maxSize, k) == Justified(blocks, size, maxSize, k)
    {
      JustifiedAlike(blocks, longer, size, maxSize, k);
    }
    ConcatSnoc(blocks[last], message);
    assert Justified(longer, size, maxSize, last)
      <==> Justified(blocks, size, maxSize, last) && Load(blocks, size, last) + |message| <= maxSize by {
      hide Concat;
    }
    hide Justified, Load;
  }

  lemma AddToKeepsSplit(blocks: seq<seq<string>>, size: nat, maxSize: nat, messages: seq<string>, message: string)
    requires GreedySplit(blocks, size, maxSize, messages)
    ensures GreedySplit(AddTo(blocks, size, maxSize, message), size, maxSize, messages + [message])
  {
    FlattenSnoc(blocks, [message]);
    FlattenLonger(blocks, message);
    GreedyNewBlock(blocks, size, maxSize, message);
    assert Justified(blocks, size, maxSize, |blocks| - 1);
    GreedyLongerBlock(blocks, size, maxSize, message);
    hide Flatten, Greedy, Load;
  }

  /** The greedy split exists and is the only one. */
  lemma {:induction false} SplitExactly(blocks: seq<seq<string>>, size: nat, maxSize: nat, messages: seq<string>)
    ensures GreedySplit(blocks, size, maxSize, messages) <==> blocks == Split(size, maxSize, messages)
    decreases |messages|
  {
    SplitIsGreedy(size, maxSize, messages);
    if GreedySplit(blocks, size, maxSize, messages) {
      SplitIsUnique(blocks, size, maxSize, messages);
    }
    hide *;
  }

  lemma {:induction false} SplitIsGreedy(size: nat, maxSize: nat, messages: seq<string>)
    ensures GreedySplit(Split(size, maxSize, messages), size, maxSize, messages)
  {
    if messages == [] {
      assert Flatten([[]]) == [];
    } else {
      var front := messages[..|messages| - 1];
      SplitIsGreedy(size, maxSize, front);
      AddToKeepsSplit(Split(size, maxSize, front), size, maxSize, front, messages[|messages| - 1]);
      assert front + [messages[|messages| - 1]] == messages;
      hide GreedySplit, AddTo;
    }
  }

  lemma {:induction false} SplitIsUnique(blocks: seq<seq<string>>, size: nat, maxSize: nat, messages: seq<string>)
    requires GreedySplit(blocks, size, maxSize, messages)
    ensures blocks == Split(size, maxSize, messages)
    decreases |messages|
  {
    var last := |blocks| - 1;
    assert Justified(blocks, size, maxSize, last);
    if blocks[last] == [] {
      assert last == 0 && blocks == [[]] && Flatten(blocks) == [];
    } else {
      var less := TakeLast(blocks, size, maxSize, messages);
      SplitIsUnique(less, size, maxSize, messages[..|messages| - 1]);
      hide GreedySplit, AddTo;
    }
  }

  /** Without its last message a greedy split is one of the messages before. */
  lemma TakeLast(blocks: seq<seq<string>>, size: nat, maxSize: nat, messages: seq<string>)
    returns (less: seq<seq<string>>)
    requires GreedySplit(blocks, size, maxSize, messages) && blocks[|blocks| - 1] != []
    ensures messages != [] && GreedySplit(less, size, maxSize, messages[..|messages| - 1])
    ensures blocks == AddTo(less, size, maxSize, messages[|messages| - 1])
  {
    var last := |blocks| - 1;
    var block := blocks[last];
    var front, message := block[..|block| - 1], block[|block| - 1];
    assert front + [message] == block;
    if last > 0 && front == [] {
      less := blocks[..last];
      FlattenSnoc(less, block);
      assert less + [[message]] == blocks;
      GreedyNewBlock(less, size, maxSize, message);
    } else {
      less := blocks[last := front];
      FlattenLonger(less, message);
      assert less[last := front + [message]] == blocks;
      GreedyLongerBlock(less, size, maxSize, message);
    }
    assert messages == Flatten(less) + [message];
    hide Flatten, Greedy, Load;
  }

  /** Every file there would be if none were ever dropped, newest first. */
  function AllFiles(slots: seq<File>, blocks: seq<seq<string>>): (all: seq<File>)
    requires slots != [] && blocks != []
    ensures |all| == |slots| + |blocks| - 1
  {
    if |blocks| == 1 then slots[0 := Present(TextOf(slots[0]) + Concat(blocks[0]))]
    else [Present(Concat(blocks[|blocks| - 1]))] + AllFiles(slots, blocks[..|blocks| - 1])
  }

  lemma NewestFile(slots: seq<File>, blocks: seq<seq<string>>)
    requires slots != [] && blocks != []
    ensures AllFiles(slots, blocks)[0].Present?
    ensures |AllFiles(slots, blocks)[0].text| == Load(blocks, |TextOf(slots[0])|, |blocks| - 1)
  {
    hide Concat;
  }

  lemma AddToAllFiles(slots: seq<File>, blocks: seq<seq<string>>, maxSize: nat, message: string)
    requires slots != [] && blocks != []
    ensures var all := AllFiles(slots, blocks);
      AllFiles(slots, AddTo(blocks, |TextOf(slots[0])|, maxSize, message)) ==
      if |TextOf(all[0])| + |message| > maxSize then [Present(message)] + all
              else all[0 := Present(TextOf(all[0]) + message)]
  {
    NewestFile(slots, blocks);
    NewFile(slots, blocks, message);
    LongerFile(slots, blocks, message);
    hide Concat, AllFiles, Load;
  }

  lemma NewFile(slots: seq<File>, blocks: seq<seq<string>>, message: string)
    requires slots != [] && blocks != []
    ensures AllFiles(slots, blocks + [[message]]) == [Present(message)] + AllFiles(slots, blocks)
  {
    ConcatOne(message);
    assert (blocks + [[message]])[..|blocks|] == blocks;
    hide Concat;
  }

  lemma LongerFile(slots: seq<File>, blocks: seq<seq<string>>, message: string)
    requires slots != [] && blocks != []
    ensures var all, last := AllFiles(slots, blocks), |blocks| - 1;
      AllFiles(slots, blocks[last := blocks[last] + [message]]) == all[0 := Present(TextOf(all[0]) + message)]
  {
    var last := |blocks| - 1;
    var longer := blocks[last := blocks[last] + [message]];
    ConcatSnoc(blocks[last], message);
    assert longer[..last] == blocks[..last];
    if last == 0 {
      Associates(TextOf(slots[0]), Concat(blocks[0]), message);
    }
    hide Concat;
  }

  /** After any run the files on disk are the newest `max_files + 1` of all files the greedy split makes. */
  lemma {:induction false} RunKeepsNewest(slots: seq<File>, maxSize: nat, messages: seq<string>)
    requires slots != [] && slots[0].Present?
    ensures var all := AllFiles(slots, Split(|TextOf(slots[0])|, maxSize, messages));
      Run(slots, maxSize, messages) == all[..|slots|]
  {
    if messages == [] {
      assert TextOf(slots[0]) + Concat([]) == slots[0].text;
    } else {
      var front := messages[..|messages| - 1];
      RunKeepsNewest(slots, maxSize, front);
      var blocks := Split(|TextOf(slots[0])|, maxSize, front);
      AddToAllFiles(slots, blocks, maxSize, messages[|messages| - 1]);
      NewestDelivered(AllFiles(slots, blocks), |slots|, maxSize, messages[|messages| - 1]);
      hide AllFiles, AddTo, Delivered, TextOf;
    }
  }

  lemma NewestDelivered(all: seq<File>, n: nat, maxSize: nat, message: string)
    requires 0 < n <= |all|
    ensures Delivered(all[..n], maxSize, message)
         == (if |TextOf(all[0])| + |message| > maxSize then [Present(message)] + all
             else all[0 := Present(TextOf(all[0]) + message)])[..n]
  {
  }

  /** The text of all files, oldest first. */
  function History(slots: seq<File>): string {
    if slots == [] then "" else History(slots[1..]) + TextOf(slots[0])
  }

  lemma {:induction false} HistoryCut(slots: seq<File>, n: nat)
    requires n <= |slots|
    ensures History(slots) == History(slots[n..]) + History(slots[..n])
  {
    if n == 0 {
      assert slots[n..] == slots;
    } else {
      HistoryCut(slots[1..], n - 1);
      assert slots[1..][n - 1..] == slots[n..] && slots[1..][..n - 1] == slots[..n][1..];
      Associates(History(slots[n..]), History(slots[1..][..n - 1]), TextOf(slots[0]));
    }
  }

  lemma Associates(a: string, b: string, c: string)
    ensures a + b + c == a + (b + c)
  {
  }

  lemma {:induction false} ConcatFlatten(blocks: seq<seq<string>>, more: seq<string>)
    ensures Concat(Flatten(blocks) + more) == Concat(Flatten(blocks)) + Concat(more)
    decreases |more|
  {
    if more == [] {
      assert Flatten(blocks) + more == Flatten(blocks);
    } else {
      var front, last := more[..|more| - 1], more[|more| - 1];
      ConcatFlatten(blocks, front);
      assert Flatten(blocks) + more == (Flatten(blocks) + front) + [last];
      ConcatSnoc(Flatten(blocks) + front, last);
      Associates(Concat(Flatten(blocks)), Concat(front), last);
      hide Flatten;
    }
  }

  lemma {:induction false} HistoryOfAll(slots: seq<File>, blocks: seq<seq<string>>)
    requires slots != [] && blocks != []
    ensures History(AllFiles(slots, blocks)) == History(slots) + Concat(Flatten(blocks))
  {
    var last := |blocks| - 1;
    ConcatFlatten(blocks[..last], blocks[last]);
    var all := AllFiles(slots, blocks);
    if last == 0 {
      assert all[1..] == slots[1..];
      assert Flatten(blocks) == blocks[0];
      Associates(History(slots[1..]), TextOf(slots[0]), Concat(blocks[0]));
    } else {
      HistoryOfAll(slots, blocks[..last]);
      assert all[1..] == AllFiles(slots, blocks[..last]);
      Associates(History(slots), Concat(Flatten(blocks[..last])), Concat(blocks[last]));
    }
    hide Concat;
  }

  /** How often a run rotates. */
  function Rotations(slots: seq<File>, maxSize: nat, messages: seq<string>): nat
    requires slots != []
  {
    |Split(|TextOf(slots[0])|, maxSize, messages)| - 1
  }

  /** The files a run drops, newest first. */
  function Dropped(slots: seq<File>, maxSize: nat, messages: seq<string>): (dropped: seq<File>)
    requires slots != []
    ensures |dropped| == Rotations(slots, maxSize, messages)
  {
    AllFiles(slots, Split(|TextOf(slots[0])|, maxSize, messages))[|slots|..]
  }

  /** Retention: what is left is the end of everything ever written, cut between files. */
  lemma RotationHistory(slots: seq<File>, maxSize: nat, messages: seq<string>)
    requires slots != [] && slots[0].Present?
    ensures History(slots) + Concat(messages)
         == History(Dropped(slots, maxSize, messages)) + History(Run(slots, maxSize, messages))
  {
    var blocks := Split(|TextOf(slots[0])|, maxSize, messages);
    SplitIsGreedy(|TextOf(slots[0])|, maxSize, messages);
    RunKeepsNewest(slots, maxSize, messages);
    HistoryOfAll(slots, blocks);
    HistoryCut(AllFiles(slots, blocks), |slots|);
    hide Split, AllFiles, History, Run;
  }

  lemma {:induction false} EmptyHistory(slots: seq<File>)
    ensures History(slots) == "" <==> forall i :: 0 <= i < |slots| ==> TextOf(slots[i]) == ""
  {
    if slots != [] {
      EmptyHistory(slots[1..]);
      assert forall i :: 1 <= i < |slots| ==> slots[i] == slots[1..][i - 1];
      assert forall i :: 0 <= i < |slots[1..]| ==> slots[1..][i] == slots[i + 1];
    }
  }

  lemma EmptyPrefix(a: string, b: string)
    ensures a + b == b <==> a == ""
  {
    assert |a + b| == |a| + |b|;
  }

  /** Nothing is lost exactly when only empty files were dropped. */
  lemma NothingLost(slots: seq<File>, maxSize: nat, messages: seq<string>)
    requires slots != [] && slots[0].Present?
    ensures History(Run(slots, maxSize, messages)) == History(slots) + Concat(messages)
       <==> forall i :: 0 <= i < Rotations(slots, maxSize, messages) ==>
              TextOf(Dropped(slots, maxSize, messages)[i]) == ""
  {
    var dropped := Dropped(slots, maxSize, messages);
    RotationHistory(slots, maxSize, messages);
    EmptyHistory(dropped);
    EmptyPrefix(History(dropped), History(Run(slots, maxSize, messages)));
    hide *;
  }

  lemma {:induction false} FileOfBlock(slots: seq<File>, blocks: seq<seq<string>>, k: nat)
    requires slots != [] && k < |blocks|
    ensures var file := AllFiles(slots, blocks)[|blocks| - 1 - k];
      file.Present? && |file.text| == Load(blocks, |TextOf(slots[0])|, k) && (k > 0 ==> file.text == Concat(blocks[k]))
  {
    if k < |blocks| - 1 {
      FileOfBlock(slots, blocks[..|blocks| - 1], k);
    } else {
      NewestFile(slots, blocks);
    }
    hide Concat;
  }

  /**
    Sizes: every file started during the run holds at most max_size characters
    or exactly one message; so does the log file the run began with, if
    anything was added to it.
   */
  lemma WrittenFilesFit(slots: seq<File>, maxSize: nat, messages: seq<string>, i: nat)
    requires slots != [] && slots[0].Present? && i < |slots| && i <= Rotations(slots, maxSize, messages)
    ensures var file := Run(slots, maxSize, messages)[i];
      && file.Present?
      && (|file.text| <= maxSize || (i < Rotations(slots, maxSize, messages) && file.text in messages)
          || (i == Rotations(slots, maxSize, messages) && |file.text| == |slots[0].text|))
  {
    var size := |TextOf(slots[0])|;
    var blocks := Split(size, maxSize, messages);
    var k := |blocks| - 1 - i;
    SplitIsGreedy(size, maxSize, messages);
    RunKeepsNewest(slots, maxSize, messages);
    FileOfBlock(slots, blocks, k);
    LoadOfBlock(blocks, size, maxSize, messages, k);
    hide GreedySplit, Split, AllFiles, Run, Load, Concat;
  }

  lemma LoadOfBlock(blocks: seq<seq<string>>, size: nat, maxSize: nat, messages: seq<string>, k: nat)
    requires GreedySplit(blocks, size, maxSize, messages) && k < |blocks|
    ensures k == 0 ==> Load(blocks, size, 0) <= maxSize || Load(blocks, size, 0) == size
    ensures k > 0 ==> Load(blocks, size, k) <= maxSize || Concat(blocks[k]) in messages
  {
    assert Justified(blocks, size, maxSize, k);
    InFlatten(blocks, k);
    if k > 0 && |blocks[k]| == 1 {
      ConcatOne(blocks[k][0]);
      assert blocks[k] == [blocks[k][0]];
    }
    hide Flatten;
  }

  lemma {:induction false} InFlatten(blocks: seq<seq<string>>, k: nat)
    requires k < |blocks|
    ensures forall m :: m in blocks[k] ==> m in Flatten(blocks)
  {
    if k < |blocks| - 1 {
      InFlatten(blocks[..|blocks| - 1], k);
    }
  }

  lemma RunStep(slots: seq<File>, maxSize: nat, messages: seq<string>, n: nat)
    requires slots != [] && n < |messages|
    ensures Run(slots, maxSize, messages[..n + 1])
         == Delivered(Run(slots, maxSize, messages[..n]), maxSize, messages[n])
  {
    assert messages[..n + 1][..n] == messages[..n];
    hide Delivered;
  }

  /** A message too large for any file rotates even an empty log file, which then takes a place of its own. */
  lemma EmptyFileRotates(slots: seq<File>, maxSize: nat, message: string)
    requires slots != [] && slots[0] == Present("") && |message| > maxSize
    ensures Rotations(slots, maxSize, [message]) == 1
    ensures Run(slots, maxSize, [message]) == [Present(message)] + slots[..|slots| - 1]
  {
    assert [message][..0] == [];
    assert Split(0, maxSize, [message]) == AddTo([[]], 0, maxSize, message);
    assert Run(slots, maxSize, [message][..0]) == slots;
  }

  /** Opening loses nothing: the files that follow and the whole history are those of the files found. */
  lemma OpeningKeeps(slots: seq<File>, blocks: seq<seq<string>>)
    requires slots != [] && blocks != []
    ensures AllFiles(Opened(slots), blocks) == AllFiles(slots, blocks)
    ensures History(Opened(slots)) == History(slots)
    ensures Opened(slots)[0].Present? && TextOf(Opened(slots)[0]) == TextOf(slots[0])
    decreases |blocks|
  {
    assert Opened(slots)[1..] == slots[1..];
    if |blocks| > 1 {
      OpeningKeeps(slots, blocks[..|blocks| - 1]);
    }
    hide Concat;
  }

  /**
    The files after a run, in terms of the files found when the log was opened:
    the newest of all files, holding the end of everything ever written.
   */
  ghost predicate Kept(existing: seq<File>, maxSize: nat, messages: seq<string>, contents: seq<File>)
    requires existing != []
  {
    && contents == AllFiles(existing, Split(|TextOf(existing[0])|, maxSize, messages))[..|existing|]
    && History(existing) + Concat(messages) == History(Dropped(existing, maxSize, messages)) + History(contents)
  }

  lemma RunIsKept(existing: seq<File>, maxSize: nat, messages: seq<string>)
    requires existing != []
    ensures Kept(existing, maxSize, messages, Run(Opened(existing), maxSize, messages))
  {
    var slots := Opened(existing);
    OpeningKeeps(existing, Split(|TextOf(existing[0])|, maxSize, messages));
    RunKeepsNewest(slots, maxSize, messages);
    RotationHistory(slots, maxSize, messages);
    hide Split, AllFiles, History, Run, Concat, Opened;
  }

  /** Opening the log and sending it messages, against the reference. */
  method Perform(existing: Directory, baseFilename: string, maxSize: nat, maxFiles: nat, messages: seq<string>)
    returns (sink: RotatingFileSink)
    requires baseFilename != ""
    ensures sink.Valid() && sink.baseFilename == baseFilename && sink.maxFiles == maxFiles
    ensures Kept(Slots(existing, baseFilename, maxFiles), maxSize, messages, sink.Contents())
    ensures sink.Contents() == Run(Opened(Slots(existing, baseFilename, maxFiles)), maxSize, messages)
    ensures SameElsewhere(existing, sink.files, baseFilename, maxFiles)
  {
    sink := new RotatingFileSink(existing, baseFilename, maxSize, maxFiles);
    ghost var slots := sink.Contents();
    RunIsKept(Slots(existing, baseFilename, maxFiles), maxSize, messages);
    var n := 0;
    while n < |messages|
      invariant n <= |messages| && fresh(sink) && sink.Valid()
      invariant sink.baseFilename == baseFilename && sink.maxSize == maxSize && sink.maxFiles == maxFiles
      invariant sink.Contents() == Run(slots, maxSize, messages[..n])
      invariant SameElsewhere(existing, sink.files, baseFilename, maxFiles)
    {
      ghost var before := sink.files;
      sink.SinkIt(messages[n]);
      ElsewhereTwice(existing, before, sink.files, baseFilename, maxFiles);
      RunStep(slots, maxSize, messages, n);
      hide *;
      n := n + 1;
    }
    assert messages[..n] == messages;
  }
}
