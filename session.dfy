/** The session store of session/session.go and session/file_util.go: a
    directory of conversation files, at most one of which is active (its
    name ends in `.active`). The directory is a map from file name to what
    the file holds, its modification time and whether it is a regular file;
    the order os.ReadDir lists it in is the sorted order of the names. */
module Session {
  import opened Wrappers
  import opened Text
  import Resource

  const ActiveSuffix := ".active"
  const RoleUser := "user"
  const RoleModel := "model"
  const NoContent := "no content"
  const Ellipsis := "..."
  /** How many characters of the first message a summary keeps. */
  const SummaryLimit := 50

  /** A turn of the conversation, with the files attached to it. */
  datatype Message = Message(role: string, text: string, files: seq<Resource.Reference>)

  /** One exchange, as Write is handed it. */
  datatype Entry = Entry(prompt: string, files: seq<Resource.Reference>, response: string)

  /** What a session file holds: nothing at all (a file just created), the
      JSON array of the conversation, or text that does not decode. */
  datatype Content = Blank | Messages(messages: seq<Message>) | Malformed

  /** What os.ReadDir reports of an entry's type: a regular file, a
      directory, or anything else (a symbolic link, a named pipe, a socket,
      a device). */
  datatype FileKind = RegularFile | Directory | OtherFile

  datatype DirEntry = DirEntry(content: Content, mtime: int, kind: FileKind) {
    /** f.Type().IsRegular(). */
    const regular: bool := kind == RegularFile
  }

  type Dir = map<string, DirEntry>

  datatype Record = Record(id: int, name: string, summary: string, timestamp: int, active: bool)

  datatype SessionError =
    | DirUnreadable
    | OpenFailed(name: string)
    | Undecodable(name: string)
    | Unsummarisable(name: string)
    | RenameFailed(source: string, target: string)
    | InvalidRecord(id: int)

  // ---------------------------------------------------------------------
  // Active files

  predicate IsActiveName(name: string) {
    HasSuffix(name, ActiveSuffix)
  }

  /** A regular file whose name ends in the suffix; nothing else is ever
      taken for the active session. */
  predicate ActiveEntry(files: Dir, name: string) {
    name in files && files[name].regular && IsActiveName(name)
  }

  predicate AtMostOneActive(files: Dir) {
    forall a, b :: a in files && b in files && ActiveEntry(files, a) && ActiveEntry(files, b) ==> a == b
  }

  predicate NoActive(files: Dir) {
    forall n :: n in files ==> !ActiveEntry(files, n)
  }

  predicate Listed(names: seq<string>, files: Dir) {
    forall i :: 0 <= i < |names| ==> names[i] in files
  }

  /** Entries in the order os.ReadDir gives them: sorted by name. */
  function Entries(files: Dir): (names: seq<string>)
    ensures forall n :: n in names <==> n in files
    ensures Increasing(names)
    ensures Listed(names, files)
  {
    SortedKeys(files.Keys)
  }

  /** The first active entry of `names`, as the scan in activeSessionFilePath
      finds it. */
  function FirstActive(names: seq<string>, files: Dir): (r: Option<string>)
    ensures r.Some? ==> r.value in names && ActiveEntry(files, r.value)
    ensures r.None? <==> forall i :: 0 <= i < |names| ==> !ActiveEntry(files, names[i])
    ensures r.Some? ==> exists i :: 0 <= i < |names| && names[i] == r.value
                          && forall j :: 0 <= j < i ==> !ActiveEntry(files, names[j])
  {
    if names == [] then None
    else if ActiveEntry(files, names[0]) then Some(names[0])
    else
      var r := FirstActive(names[1..], files);
      if r.None? then r
      else
        var i :| 0 <= i < |names[1..]| && names[1..][i] == r.value
                 && forall j :: 0 <= j < i ==> !ActiveEntry(files, names[1..][j]);
        assert names[i + 1] == r.value;
        assert forall j :: 0 <= j < i + 1 ==> !ActiveEntry(files, names[j]) by {
          forall j | 0 <= j < i + 1
            ensures !ActiveEntry(files, names[j])
          {
            if j > 0 {
              assert names[j] == names[1..][j - 1];
            }
          }
        }
        r
  }

  /** The scan finds an active entry exactly when there is one, and with at
      most one there is no choice about which. */
  lemma FindsActive(files: Dir)
    ensures FirstActive(Entries(files), files).None? <==> NoActive(files)
    ensures AtMostOneActive(files) ==>
              forall n :: ActiveEntry(files, n) <==> FirstActive(Entries(files), files) == Some(n)
  {
  }

  // ---------------------------------------------------------------------
  // Moving files

  /** os.Rename of a regular file on Unix succeeds when the source exists
      and the target, if there is one, is not a directory; whatever the
      target is (a regular file, a symbolic link, a pipe), it is replaced. */
  predicate CanMove(files: Dir, source: string, target: string) {
    source in files && (target in files ==> files[target].kind != Directory)
  }

  function Moved(files: Dir, source: string, target: string): (r: Dir)
    requires source in files
    ensures target in r && r[target] == files[source]
    ensures forall n :: n != target ==> (n in r <==> n in files && n != source)
    ensures forall n :: n in r && n != target ==> r[n] == files[n]
  {
    (files - {source})[target := files[source]]
  }

  // ---------------------------------------------------------------------
  // Summaries

  /** The summary of a decoded conversation: "no content" when it is empty,
      otherwise the first message's text, cut to 50 characters followed by
      an ellipsis when it is not shorter than that. */
  function SummaryOf(messages: seq<Message>): (s: string)
    ensures messages == [] ==> s == NoContent
    ensures messages != [] && |messages[0].text| < SummaryLimit ==> s == messages[0].text
    ensures messages != [] && |messages[0].text| >= SummaryLimit ==>
              |s| == SummaryLimit + |Ellipsis| && HasPrefix(messages[0].text, s[..SummaryLimit])
              && HasSuffix(s, Ellipsis)
  {
    if messages == [] then NoContent
    else if |messages[0].text| < SummaryLimit then messages[0].text
    else messages[0].text[..SummaryLimit] + Ellipsis
  }

  /** summarise as session.go writes it: the file is decoded before anything
      else, and decoding a file with nothing in it fails (io.EOF), so a
      blank file cannot be summarised. */
  function SummariseAsWritten(name: string, c: Content): (r: Result<string, SessionError>)
    ensures r.Success? <==> c.Messages?
  {
    match c
    case Blank => Failure(Unsummarisable(name))
    case Malformed => Failure(Unsummarisable(name))
    case Messages(ms) => Success(SummaryOf(ms))
  }

  /** summarise as it is evidently meant: a blank file, which Read itself
      takes for an empty conversation, is summarised as one. */
  function Summarise(name: string, c: Content): (r: Result<string, SessionError>)
    ensures r.Success? <==> !c.Malformed?
    ensures c.Blank? ==> r == Success(NoContent)
    ensures c.Messages? ==> r == SummariseAsWritten(name, c)
  {
    match c
    case Blank => Success(NoContent)
    case Malformed => Failure(Unsummarisable(name))
    case Messages(ms) => Success(SummaryOf(ms))
  }

  /** The summariser List applies: as written, or as evidently meant. */
  function Summary(corrected: bool, name: string, c: Content): (r: Result<string, SessionError>)
    ensures r.Success? ==> (c.Messages? && r.value == SummaryOf(c.messages)) || (corrected && c.Blank? && r.value == NoContent)
    ensures r.Failure? ==> r.error == Unsummarisable(name)
  {
    if corrected then Summarise(name, c) else SummariseAsWritten(name, c)
  }

  // ---------------------------------------------------------------------
  // Listing

  /** The records of the regular entries of `names`, in that order, each
      numbered by its position among ALL the entries (so numbers skip the
      entries that are not regular files); the first entry whose summary
      fails stops the listing. */
  function Collect(names: seq<string>, files: Dir, corrected: bool): (r: Result<seq<Record>, SessionError>)
    requires Listed(names, files)
    decreases |names|
  {
    if names == [] then Success([])
    else
      var rest :- Collect(names[..|names| - 1], files, corrected);
      var n := names[|names| - 1];
      if !files[n].regular then Success(rest)
      else
        var summary :- Summary(corrected, n, files[n].content);
        Success(rest + [Record(|names|, n, summary, files[n].mtime, IsActiveName(n))])
  }

  /** What a listed record says about the entry it was made from. */
  predicate Describes(r: Record, names: seq<string>, files: Dir, corrected: bool)
    requires Listed(names, files)
  {
    1 <= r.id <= |names| && r.name == names[r.id - 1]
    && files[r.name].regular && r.timestamp == files[r.name].mtime
    && r.active == IsActiveName(r.name)
    && Summary(corrected, r.name, files[r.name].content) == Success(r.summary)
  }

  predicate IdsIncrease(rs: seq<Record>) {
    forall j, k :: 0 <= j < k < |rs| ==> rs[j].id < rs[k].id
  }

  function Names(rs: seq<Record>): (ns: seq<string>)
    ensures |ns| == |rs| && forall k :: 0 <= k < |rs| ==> ns[k] == rs[k].name
  {
    seq(|rs|, k requires 0 <= k < |rs| => rs[k].name)
  }

  predicate Summarisable(names: seq<string>, files: Dir, corrected: bool)
    requires Listed(names, files)
  {
    forall i :: 0 <= i < |names| && files[names[i]].regular ==> Summary(corrected, names[i], files[names[i]].content).Success?
  }

  /** The listing fails exactly when some regular entry cannot be summarised. */
  lemma {:induction false} CollectSucceeds(names: seq<string>, files: Dir, corrected: bool)
    requires Listed(names, files)
    ensures Collect(names, files, corrected).Success? <==> Summarisable(names, files, corrected)
    decreases |names|
  {
    if names != [] {
      var init := names[..|names| - 1];
      CollectSucceeds(init, files, corrected);
      assert forall i :: 0 <= i < |init| ==> init[i] == names[i];
    }
  }

  /** Every listed record is faithful to its entry, and the records are
      numbered in increasing order. */
  lemma {:induction false} CollectDescribes(names: seq<string>, files: Dir, corrected: bool)
    requires Listed(names, files)
    ensures Collect(names, files, corrected).Success? ==>
              (forall r :: r in Collect(names, files, corrected).value ==> Describes(r, names, files, corrected))
              && IdsIncrease(Collect(names, files, corrected).value)
    decreases |names|
  {
    if names != [] {
      var init := names[..|names| - 1];
      CollectDescribes(init, files, corrected);
      if Collect(init, files, corrected).Success? {
        var rest := Collect(init, files, corrected).value;
        assert forall r :: r in rest ==> Describes(r, names, files, corrected);
        var n := names[|names| - 1];
        var c := Collect(names, files, corrected);
        if c.Success? && files[n].regular {
          var summary := Summary(corrected, n, files[n].content).value;
          var last := Record(|names|, n, summary, files[n].mtime, IsActiveName(n));
          assert c.value == rest + [last];
          assert Describes(last, names, files, corrected);
          forall r | r in c.value
            ensures Describes(r, names, files, corrected)
          {
            if r != last { assert r in rest; }
          }
          forall k | 0 <= k < |rest|
            ensures rest[k].id <= |init|
          {
            assert rest[k] in rest;
            assert Describes(rest[k], init, files, corrected);
          }
        }
      }
    }
  }

  /** No regular entry is left out of a listing that succeeds. */
  lemma {:induction false} CollectComplete(names: seq<string>, files: Dir, corrected: bool)
    requires Listed(names, files)
    ensures Collect(names, files, corrected).Success? ==>
              forall i :: 0 <= i < |names| && files[names[i]].regular ==> names[i] in Names(Collect(names, files, corrected).value)
    decreases |names|
  {
    if names != [] {
      var init := names[..|names| - 1];
      var n := names[|names| - 1];
      CollectComplete(init, files, corrected);
      var r := Collect(names, files, corrected);
      if r.Success? {
        var rest := Collect(init, files, corrected).value;
        assert r.value[..|rest|] == rest;
        forall i | 0 <= i < |init| && files[init[i]].regular
          ensures init[i] in Names(r.value)
        {
          var k :| 0 <= k < |rest| && Names(rest)[k] == init[i];
          assert Names(r.value)[k] == init[i];
        }
        if files[n].regular {
          assert Names(r.value)[|rest|] == n;
        }
      }
    }
  }

  // ---------------------------------------------------------------------
  // Ordering by modification time (sort.SliceStable with Before)

  predicate TimeSorted(rs: seq<Record>) {
    forall j, k :: 0 <= j < k < |rs| ==> rs[j].timestamp <= rs[k].timestamp
  }

  /** `x` placed after every record of `rs` that is not later than it. */
  function Insert(rs: seq<Record>, x: Record): (r: seq<Record>)
    decreases |rs|
  {
    if rs == [] || rs[|rs| - 1].timestamp <= x.timestamp then rs + [x]
    else Insert(rs[..|rs| - 1], x) + [rs[|rs| - 1]]
  }

  /** Insertion sort: each record in turn is placed after the earlier ones
      that are not later than it, so records with equal times keep their
      order. */
  function SortByTime(rs: seq<Record>): (r: seq<Record>)
    decreases |rs|
  {
    if rs == [] then [] else Insert(SortByTime(rs[..|rs| - 1]), rs[|rs| - 1])
  }

  /** The records of `rs` stamped with time `t`, in their order. */
  function WithTime(rs: seq<Record>, t: int): (r: seq<Record>)
    decreases |rs|
  {
    if rs == [] then []
    else WithTime(rs[..|rs| - 1], t) + (if rs[|rs| - 1].timestamp == t then [rs[|rs| - 1]] else [])
  }

  lemma {:induction false} InsertPermutes(rs: seq<Record>, x: Record)
    ensures multiset(Insert(rs, x)) == multiset(rs) + multiset{x}
    decreases |rs|
  {
    if !(rs == [] || rs[|rs| - 1].timestamp <= x.timestamp) {
      var init := rs[..|rs| - 1];
      InsertPermutes(init, x);
      assert rs == init + [rs[|rs| - 1]];
    }
  }

  lemma {:induction false} InsertSorted(rs: seq<Record>, x: Record)
    requires TimeSorted(rs)
    ensures TimeSorted(Insert(rs, x))
    ensures |Insert(rs, x)| == |rs| + 1
    ensures Insert(rs, x)[|rs|].timestamp >= x.timestamp
    ensures rs != [] ==> Insert(rs, x)[|rs|].timestamp >= rs[|rs| - 1].timestamp
    decreases |rs|
  {
    if !(rs == [] || rs[|rs| - 1].timestamp <= x.timestamp) {
      var init := rs[..|rs| - 1];
      InsertSorted(init, x);
    }
  }

  lemma {:induction false} WithTimeAppend(a: seq<Record>, b: seq<Record>, t: int)
    ensures WithTime(a + b, t) == WithTime(a, t) + WithTime(b, t)
    decreases |b|
  {
    if b == [] {
      assert a + b == a;
    } else {
      var init := b[..|b| - 1];
      assert (a + b)[..|a + b| - 1] == a + init;
      assert (a + b)[|a + b| - 1] == b[|b| - 1];
      WithTimeAppend(a, init, t);
    }
  }

  /** Inserting keeps the order of the records that share a time, and puts
      `x` after those of its own time. */
  lemma WithTimeSingle(r: Record, t: int)
    ensures WithTime([r], t) == if r.timestamp == t then [r] else []
  {
    assert [r][..0] == [];
  }

  lemma {:induction false} InsertStable(rs: seq<Record>, x: Record, t: int)
    ensures WithTime(Insert(rs, x), t) == WithTime(rs, t) + WithTime([x], t)
    decreases |rs|
  {
    if rs == [] || rs[|rs| - 1].timestamp <= x.timestamp {
      WithTimeAppend(rs, [x], t);
    } else {
      var init, last := rs[..|rs| - 1], rs[|rs| - 1];
      WithTimeSingle(x, t);
      WithTimeSingle(last, t);
      calc {
        WithTime(Insert(rs, x), t);
        WithTime(Insert(init, x) + [last], t);
        { WithTimeAppend(Insert(init, x), [last], t); }
        WithTime(Insert(init, x), t) + WithTime([last], t);
        { InsertStable(init, x, t); }
        WithTime(init, t) + WithTime([x], t) + WithTime([last], t);
        WithTime(init, t) + WithTime([last], t) + WithTime([x], t);
        { WithTimeAppend(init, [last], t); }
        WithTime(init + [last], t) + WithTime([x], t);
        { assert init + [last] == rs; }
        WithTime(rs, t) + WithTime([x], t);
      }
    }
  }

  lemma {:induction false} SortByTimeSorted(rs: seq<Record>)
    ensures TimeSorted(SortByTime(rs)) && |SortByTime(rs)| == |rs|
    decreases |rs|
  {
    if rs != [] {
      SortByTimeSorted(rs[..|rs| - 1]);
      InsertSorted(SortByTime(rs[..|rs| - 1]), rs[|rs| - 1]);
    }
  }

  lemma {:induction false} SortByTimePermutes(rs: seq<Record>)
    ensures multiset(SortByTime(rs)) == multiset(rs)
    decreases |rs|
  {
    if rs != [] {
      var init, last := rs[..|rs| - 1], rs[|rs| - 1];
      SortByTimePermutes(init);
      InsertPermutes(SortByTime(init), last);
      assert rs == init + [last];
    }
  }

  lemma {:induction false} SortByTimeStable(rs: seq<Record>, t: int)
    ensures WithTime(SortByTime(rs), t) == WithTime(rs, t)
    decreases |rs|
  {
    if rs != [] {
      var init, last := rs[..|rs| - 1], rs[|rs| - 1];
      calc {
        WithTime(SortByTime(rs), t);
        WithTime(Insert(SortByTime(init), last), t);
        { InsertStable(SortByTime(init), last, t); }
        WithTime(SortByTime(init), t) + WithTime([last], t);
        { SortByTimeStable(init, t); }
        WithTime(init, t) + WithTime([last], t);
        { WithTimeAppend(init, [last], t); assert init + [last] == rs; }
        WithTime(rs, t);
      }
    }
  }

  /** sort.SliceStable as the listing uses it: the result is ordered by time,
      holds the same records, and keeps the order of records with equal
      times. */
  lemma SortByTimeSpec(rs: seq<Record>)
    ensures TimeSorted(SortByTime(rs))
    ensures multiset(SortByTime(rs)) == multiset(rs)
    ensures forall t :: WithTime(SortByTime(rs), t) == WithTime(rs, t)
  {
    SortByTimeSorted(rs);
    SortByTimePermutes(rs);
    forall t ensures WithTime(SortByTime(rs), t) == WithTime(rs, t) {
      SortByTimeStable(rs, t);
    }
  }

  // ---------------------------------------------------------------------
  // List

  /** List over a directory: the readable directory's regular entries, as
      records ordered by modification time. */
  function Listing(files: Dir, readable: bool, corrected: bool): (r: Result<seq<Record>, SessionError>)
  {
    if !readable then Failure(DirUnreadable)
    else
      var rs :- Collect(Entries(files), files, corrected);
      Success(SortByTime(rs))
  }

  /** List as session.go writes it. */
  function ListAsWritten(files: Dir, readable: bool): (r: Result<seq<Record>, SessionError>)
    ensures !readable ==> r == Failure(DirUnreadable)
  {
    Listing(files, readable, false)
  }

  /** List with a blank session file summarised as an empty one; the rest of
      the model lists sessions this way. */
  function ListSpec(files: Dir, readable: bool): (r: Result<seq<Record>, SessionError>)
    ensures !readable ==> r == Failure(DirUnreadable)
  {
    Listing(files, readable, true)
  }

  /** A readable directory lists unless one of its regular files cannot be
      summarised. */
  lemma ListingSucceeds(files: Dir, readable: bool, corrected: bool)
    ensures Listing(files, readable, corrected).Success? <==>
              readable && forall n :: n in files && files[n].regular ==> Summary(corrected, n, files[n].content).Success?
  {
    var names := Entries(files);
    CollectSucceeds(names, files, corrected);
    if readable && forall n :: n in files && files[n].regular ==> Summary(corrected, n, files[n].content).Success? {
      assert Summarisable(names, files, corrected);
    }
    if Listing(files, readable, corrected).Success? {
      forall n | n in files && files[n].regular
        ensures Summary(corrected, n, files[n].content).Success?
      {
        var i :| 0 <= i < |names| && names[i] == n;
      }
    }
  }

  /** A listing's records are ordered by time, and each states a regular
      file's time, activeness and summary and its place among the directory's
      entries. */
  lemma ListingRecords(files: Dir, readable: bool, corrected: bool)
    requires Listing(files, readable, corrected).Success?
    ensures TimeSorted(Listing(files, readable, corrected).value)
    ensures forall r :: r in Listing(files, readable, corrected).value ==> Describes(r, Entries(files), files, corrected)
  {
    var names := Entries(files);
    var collected := Collect(names, files, corrected).value;
    var rs := Listing(files, readable, corrected).value;
    CollectDescribes(names, files, corrected);
    SortByTimeSpec(collected);
    forall r | r in rs
      ensures r in collected
    {
      assert r in multiset(rs);
    }
  }

  /** A listing names every regular file of the directory and nothing else. */
  lemma ListingNames(files: Dir, readable: bool, corrected: bool)
    requires Listing(files, readable, corrected).Success?
    ensures forall n :: n in Names(Listing(files, readable, corrected).value) <==> n in files && files[n].regular
  {
    var rs := Listing(files, readable, corrected).value;
    ListingRecords(files, readable, corrected);
    forall n | n in Names(rs)
      ensures n in files && files[n].regular
    {
      var k :| 0 <= k < |rs| && Names(rs)[k] == n;
      assert rs[k] in rs;
    }
    ListingComplete(files, readable, corrected);
  }

  lemma ListingComplete(files: Dir, readable: bool, corrected: bool)
    requires Listing(files, readable, corrected).Success?
    ensures forall n :: n in files && files[n].regular ==> n in Names(Listing(files, readable, corrected).value)
  {
    var names := Entries(files);
    var collected := Collect(names, files, corrected).value;
    CollectComplete(names, files, corrected);
    SortByTimePermutes(collected);
    NamesOfPermutation(collected, SortByTime(collected));
    forall n | n in files && files[n].regular
      ensures n in Names(collected)
    {
      var i :| 0 <= i < |names| && names[i] == n;
    }
  }

  /** Records that are a permutation of each other carry the same names. */
  lemma NamesOfPermutation(a: seq<Record>, b: seq<Record>)
    requires multiset(a) == multiset(b)
    ensures forall n :: n in Names(a) ==> n in Names(b)
  {
    forall n | n in Names(a)
      ensures n in Names(b)
    {
      var j :| 0 <= j < |a| && Names(a)[j] == n;
      assert a[j] in multiset(b);
      var k :| 0 <= k < |b| && b[k] == a[j];
      assert Names(b)[k] == n;
    }
  }

  /** A listing keeps the order of the directory (that is, of the names)
      among records with the same modification time. */
  lemma ListingStable(files: Dir, readable: bool, corrected: bool, t: int)
    requires Listing(files, readable, corrected).Success?
    ensures WithTime(Listing(files, readable, corrected).value, t) == WithTime(Collect(Entries(files), files, corrected).value, t)
  {
    SortByTimeSpec(Collect(Entries(files), files, corrected).value);
  }

  /** A regular session file with nothing in it (the one Read creates when no
      session is active) makes List as written fail, while the corrected
      List fails only on a file that does not decode. */
  lemma BlankFileBreaksListing(files: Dir, name: string)
    requires name in files && files[name].regular && files[name].content.Blank?
    ensures ListAsWritten(files, true).Failure?
    ensures ListSpec(files, true).Success? <==> forall n :: n in files && files[n].regular ==> !files[n].content.Malformed?
  {
    ListingSucceeds(files, true, false);
    ListingSucceeds(files, true, true);
  }

  // ---------------------------------------------------------------------
  // Operations on the directory

  /** What the operations take from the environment: the modification time
      a write leaves on a file, and the nanosecond clock reading and random
      number that name a new session file. */
  datatype Clock = Clock(mtime: int, unixNano: nat, random: nat)

  /** An operation's result together with the directory it leaves behind. */
  datatype Outcome<T> = Outcome(result: Result<T, SessionError>, files: Dir)

  /** The name of a new session file: the clock reading, an underscore, the
      random number and the suffix. */
  function FreshName(clock: Clock): (name: string)
    ensures IsActiveName(name)
  {
    TrimSuffixAppended(NatToString(clock.unixNano) + "_" + NatToString(clock.random), ActiveSuffix);
    NatToString(clock.unixNano) + "_" + NatToString(clock.random) + ActiveSuffix
  }

  /** Stashing a new session file leaves a name without the suffix. */
  lemma FreshNameStashes(clock: Clock)
    ensures !IsActiveName(TrimSuffix(FreshName(clock), ActiveSuffix))
  {
    var stem := NatToString(clock.unixNano) + "_" + NatToString(clock.random);
    TrimSuffixAppended(stem, ActiveSuffix);
    assert stem[|stem| - 1] == NatToString(clock.random)[|NatToString(clock.random)| - 1];
    assert IsDigit(stem[|stem| - 1]);
  }

  /** The directory's invariant: at most one active session, and stashing
      the active one leaves a name that is not active. */
  predicate Consistent(files: Dir) {
    AtMostOneActive(files)
    && forall n :: n in files && ActiveEntry(files, n) ==> !IsActiveName(TrimSuffix(n, ActiveSuffix))
  }

  /** activeSessionFilePath: the first active entry, if any. */
  function ActiveSession(files: Dir, readable: bool): (r: Result<Option<string>, SessionError>)
    ensures r.Failure? <==> !readable
    ensures r.Success? ==> (r.value.None? <==> NoActive(files))
    ensures r.Success? && r.value.Some? ==> ActiveEntry(files, r.value.value)
  {
    if !readable then Failure(DirUnreadable)
    else
      FindsActive(files);
      Success(FirstActive(Entries(files), files))
  }

  /** openActiveSessionFile: the active session file, created empty under a
      new name when there is none. */
  function Open(files: Dir, readable: bool, clock: Clock): (o: Outcome<string>)
    ensures o.result.Success? ==> ActiveEntry(o.files, o.result.value)
  {
    match ActiveSession(files, readable)
    case Failure(e) => Outcome(Failure(e), files)
    case Success(Some(n)) => Outcome(Success(n), files)
    case Success(None) =>
      var n := FreshName(clock);
      if n in files then Outcome(Failure(OpenFailed(n)), files)
      else Outcome(Success(n), files[n := DirEntry(Blank, clock.mtime, RegularFile)])
  }

  /** What decoding a session file yields: an empty file is an empty
      conversation. */
  function Decode(name: string, c: Content): (r: Result<seq<Message>, SessionError>)
    ensures r.Failure? <==> c.Malformed?
  {
    match c
    case Blank => Success([])
    case Messages(ms) => Success(ms)
    case Malformed => Failure(Undecodable(name))
  }

  /** Read: the messages of the active session. */
  function ReadOp(files: Dir, readable: bool, clock: Clock): (o: Outcome<seq<Message>>)
  {
    var handle := Open(files, readable, clock);
    if handle.result.Failure? then Outcome(Failure(handle.result.error), handle.files)
    else Outcome(Decode(handle.result.value, handle.files[handle.result.value].content), handle.files)
  }

  /** The two messages an exchange adds to the conversation. */
  function Exchange(entry: Entry): (ms: seq<Message>)
    ensures |ms| == 2 && ms[0].text == entry.prompt && ms[1].text == entry.response
  {
    [Message(RoleUser, entry.prompt, entry.files), Message(RoleModel, entry.response, [])]
  }

  /** Write: the active session rewritten with the exchange appended. */
  function WriteOp(files: Dir, readable: bool, entry: Entry, clock: Clock): (o: Outcome<()>)
  {
    var read := ReadOp(files, readable, clock);
    if read.result.Failure? then Outcome(Failure(read.result.error), read.files)
    else
      var handle := Open(read.files, readable, clock);
      if handle.result.Failure? then Outcome(Failure(handle.result.error), handle.files)
      else
        var n := handle.result.value;
        Outcome(Success(()), handle.files[n := DirEntry(Messages(read.result.value + Exchange(entry)), clock.mtime, RegularFile)])
  }

  /** Stash: the active session file renamed to drop its suffix. */
  function StashOp(files: Dir, readable: bool): (o: Outcome<()>)
  {
    match ActiveSession(files, readable)
    case Failure(e) => Outcome(Failure(e), files)
    case Success(None) => Outcome(Success(()), files)
    case Success(Some(a)) =>
      var target := TrimSuffix(a, ActiveSuffix);
      if CanMove(files, a, target) then Outcome(Success(()), Moved(files, a, target))
      else Outcome(Failure(RenameFailed(a, target)), files)
  }

  /** Restore: the listed session at position `id` made the active one. */
  function RestoreOp(files: Dir, readable: bool, id: int): (o: Outcome<()>)
    requires id >= 1
  {
    match ListSpec(files, readable)
    case Failure(e) => Outcome(Failure(e), files)
    case Success(records) =>
      if id > |records| then Outcome(Failure(InvalidRecord(id)), files)
      else if records[id - 1].active then Outcome(Success(()), files)
      else
        var stashed := StashOp(files, readable);
        if stashed.result.Failure? then stashed
        else
          var name := records[id - 1].name;
          var target := name + ActiveSuffix;
          if CanMove(stashed.files, name, target) then Outcome(Success(()), Moved(stashed.files, name, target))
          else Outcome(Failure(RenameFailed(name, target)), stashed.files)
  }

  /** Delete: the listed session at position `id` removed. */
  function DeleteOp(files: Dir, readable: bool, id: int): (o: Outcome<()>)
    requires id >= 1
  {
    match ListSpec(files, readable)
    case Failure(e) => Outcome(Failure(e), files)
    case Success(records) =>
      if id > |records| then Outcome(Failure(InvalidRecord(id)), files)
      else Outcome(Success(()), files - {records[id - 1].name})
  }

  // ---------------------------------------------------------------------
  // What the operations keep and achieve

  lemma NoActiveConsistent(files: Dir)
    requires NoActive(files)
    ensures Consistent(files)
  {
  }

  /** Opening never makes a second session active. */
  lemma OpenKeepsConsistent(files: Dir, readable: bool, clock: Clock)
    requires Consistent(files)
    ensures Consistent(Open(files, readable, clock).files)
    ensures Open(files, readable, clock).result.Success? ==>
              forall n :: ActiveEntry(Open(files, readable, clock).files, n) <==> n == Open(files, readable, clock).result.value
  {
    var o := Open(files, readable, clock);
    if readable && NoActive(files) && FreshName(clock) !in files {
      FreshNameStashes(clock);
      assert forall n :: n in o.files && n != FreshName(clock) ==> o.files[n] == files[n];
    }
  }

  /** Rewriting the active file's content keeps the set of active files. */
  lemma RewriteKeepsActive(files: Dir, name: string, e: DirEntry)
    requires ActiveEntry(files, name) && e.regular
    ensures forall n :: ActiveEntry(files[name := e], n) <==> ActiveEntry(files, n)
  {
  }

  /** With a session active, opening finds it and changes nothing. */
  lemma OpenExisting(files: Dir, readable: bool, clock: Clock, name: string)
    requires AtMostOneActive(files) && readable && ActiveEntry(files, name)
    ensures Open(files, readable, clock) == Outcome(Success(name), files)
  {
    FindsActive(files);
  }

  /** Write reads (perhaps creating the file), then rewrites the file it read
      with the exchange appended. */
  lemma WriteShape(files: Dir, readable: bool, entry: Entry, clock: Clock)
    requires Consistent(files)
    requires WriteOp(files, readable, entry, clock).result.Success?
    ensures var handle := Open(files, readable, clock);
            var read := ReadOp(files, readable, clock);
            handle.result.Success? && read.result.Success? && read.files == handle.files
            && Consistent(handle.files)
            && WriteOp(files, readable, entry, clock).files
               == handle.files[handle.result.value := DirEntry(Messages(read.result.value + Exchange(entry)), clock.mtime, RegularFile)]
  {
    var handle := Open(files, readable, clock);
    OpenKeepsConsistent(files, readable, clock);
    OpenExisting(handle.files, readable, clock, handle.result.value);
  }

  lemma RewriteKeepsConsistent(files: Dir, name: string, e: DirEntry)
    requires Consistent(files) && ActiveEntry(files, name) && e.regular
    ensures Consistent(files[name := e])
  {
    RewriteKeepsActive(files, name, e);
  }

  /** A failed Write leaves the directory as its Read left it. */
  lemma WriteFailure(files: Dir, readable: bool, entry: Entry, clock: Clock)
    requires Consistent(files)
    requires WriteOp(files, readable, entry, clock).result.Failure?
    ensures WriteOp(files, readable, entry, clock).files == Open(files, readable, clock).files
  {
    var handle := Open(files, readable, clock);
    OpenKeepsConsistent(files, readable, clock);
    if handle.result.Success? {
      OpenExisting(handle.files, readable, clock, handle.result.value);
    }
  }

  lemma WriteKeepsConsistent(files: Dir, readable: bool, entry: Entry, clock: Clock)
    requires Consistent(files)
    ensures Consistent(WriteOp(files, readable, entry, clock).files)
  {
    OpenKeepsConsistent(files, readable, clock);
    if WriteOp(files, readable, entry, clock).result.Success? {
      WriteShape(files, readable, entry, clock);
      var handle := Open(files, readable, clock);
      var read := ReadOp(files, readable, clock);
      RewriteKeepsConsistent(handle.files, handle.result.value, DirEntry(Messages(read.result.value + Exchange(entry)), clock.mtime, RegularFile));
    } else {
      WriteFailure(files, readable, entry, clock);
    }
  }

  /** After a successful stash no session is active. */
  lemma StashClears(files: Dir, readable: bool)
    requires Consistent(files)
    requires StashOp(files, readable).result.Success?
    ensures NoActive(StashOp(files, readable).files)
  {
    match ActiveSession(files, readable)
    case Success(Some(a)) => MoveActiveClears(files, a);
    case _ =>
  }

  /** Stash fails on a readable directory only when the name without the
      suffix is taken by a directory; any other entry of that name, a
      symbolic link say, is replaced by the session. */
  lemma StashBlockedOnlyByDirectory(files: Dir, a: string)
    requires ActiveSession(files, true) == Success(Some(a))
    ensures var target := TrimSuffix(a, ActiveSuffix);
            && (StashOp(files, true).result.Failure? <==> target in files && files[target].kind == Directory)
            && (StashOp(files, true).result.Success? ==> StashOp(files, true).files[target] == files[a])
  {
  }

  /** Renaming the one active file to its name without the suffix leaves no
      active file. */
  lemma MoveActiveClears(files: Dir, a: string)
    requires Consistent(files) && ActiveEntry(files, a)
    ensures NoActive(Moved(files, a, TrimSuffix(a, ActiveSuffix)))
  {
    var t := TrimSuffix(a, ActiveSuffix);
    var moved := Moved(files, a, t);
    forall n | n in moved
      ensures !ActiveEntry(moved, n)
    {
      if n != t {
        assert n in files && n != a && moved[n] == files[n];
      }
    }
  }

  lemma StashKeepsConsistent(files: Dir, readable: bool)
    requires Consistent(files)
    ensures Consistent(StashOp(files, readable).files)
  {
    if StashOp(files, readable).result.Success? {
      StashClears(files, readable);
    }
  }

  /** Read after Write: the conversation read back is the one read before
      with the exchange appended, and the directory is left as written. */
  lemma ReadAfterWrite(files: Dir, readable: bool, entry: Entry, clock: Clock, later: Clock)
    requires Consistent(files)
    requires WriteOp(files, readable, entry, clock).result.Success?
    ensures var written := WriteOp(files, readable, entry, clock).files;
            ReadOp(written, readable, later) == Outcome(Success(ReadOp(files, readable, clock).result.value + Exchange(entry)), written)
  {
    var handle := Open(files, readable, clock);
    var read := ReadOp(files, readable, clock);
    WriteShape(files, readable, entry, clock);
    var n := handle.result.value;
    var e := DirEntry(Messages(read.result.value + Exchange(entry)), clock.mtime, RegularFile);
    var written := handle.files[n := e];
    assert written == WriteOp(files, readable, entry, clock).files;
    RewriteKeepsConsistent(handle.files, n, e);
    assert ActiveEntry(written, n);
    OpenExisting(written, readable, later, n);
    assert ReadOp(written, readable, later) == Outcome(Decode(n, e.content), written);
  }

  /** Read after Stash starts a new, empty conversation in a new file. */
  lemma ReadAfterStash(files: Dir, readable: bool, clock: Clock)
    requires Consistent(files)
    requires StashOp(files, readable).result.Success?
    requires FreshName(clock) !in StashOp(files, readable).files
    ensures var stashed := StashOp(files, readable).files;
            ReadOp(stashed, readable, clock) == Outcome(Success([]), stashed[FreshName(clock) := DirEntry(Blank, clock.mtime, RegularFile)])
  {
    StashClears(files, readable);
  }

  /** Stashing keeps every regular file that is not active (perhaps
      replacing its content with the stashed session's). */
  lemma StashKeepsInactive(files: Dir, readable: bool, name: string)
    requires Consistent(files) && StashOp(files, readable).result.Success?
    requires name in files && files[name].regular && !IsActiveName(name)
    ensures name in StashOp(files, readable).files && StashOp(files, readable).files[name].regular
  {
    var stashed := StashOp(files, readable);
    var active := ActiveSession(files, readable);
    if active.value.Some? {
      var a := active.value.value;
      if name != TrimSuffix(a, ActiveSuffix) {
        assert stashed.files[name] == files[name];
      }
    }
  }

  /** Renaming a regular file to its name with the suffix, in a directory
      with no active session, makes it the one active session. */
  lemma Activate(files: Dir, name: string)
    requires NoActive(files) && name in files && files[name].regular && !IsActiveName(name)
    ensures forall n :: ActiveEntry(Moved(files, name, name + ActiveSuffix), n) <==> n == name + ActiveSuffix
    ensures Consistent(Moved(files, name, name + ActiveSuffix))
  {
    var target := name + ActiveSuffix;
    var restored := Moved(files, name, target);
    TrimSuffixAppended(name, ActiveSuffix);
    forall n | n in restored
      ensures ActiveEntry(restored, n) <==> n == target
    {
      if n != target {
        assert restored[n] == files[n];
      }
    }
  }

  /** What a successful Restore did: nothing when the chosen session was
      already active, otherwise a stash followed by a rename. */
  lemma RestoreShape(files: Dir, readable: bool, id: int)
    requires id >= 1
    requires RestoreOp(files, readable, id).result.Success?
    ensures ListSpec(files, readable).Success? && id <= |ListSpec(files, readable).value|
    ensures var record := ListSpec(files, readable).value[id - 1];
            if record.active then RestoreOp(files, readable, id).files == files
            else StashOp(files, readable).result.Success?
                 && RestoreOp(files, readable, id).files == Moved(StashOp(files, readable).files, record.name, record.name + ActiveSuffix)
  {
    var listing := ListSpec(files, readable);
    assert listing.Success?;
    var record := listing.value[id - 1];
    if !record.active {
      var stashed := StashOp(files, readable);
      assert stashed.result.Success?;
      var target := record.name + ActiveSuffix;
      assert CanMove(stashed.files, record.name, target);
    }
  }

  /** Stashing and then renaming an inactive regular file to its name with
      the suffix leaves that file the one active session. */
  lemma StashThenActivate(files: Dir, readable: bool, name: string)
    requires Consistent(files) && StashOp(files, readable).result.Success?
    requires name in files && files[name].regular && !IsActiveName(name)
    ensures name in StashOp(files, readable).files
    ensures var restored := Moved(StashOp(files, readable).files, name, name + ActiveSuffix);
            (forall n :: ActiveEntry(restored, n) <==> n == name + ActiveSuffix) && Consistent(restored)
  {
    StashClears(files, readable);
    StashKeepsInactive(files, readable, name);
    Activate(StashOp(files, readable).files, name);
  }

  /** Restore leaves exactly one session active: the chosen one, under its
      name with the suffix added unless it was already the active one. */
  lemma RestoreActivates(files: Dir, readable: bool, id: int)
    requires Consistent(files) && id >= 1
    requires RestoreOp(files, readable, id).result.Success?
    ensures ListSpec(files, readable).Success? && id <= |ListSpec(files, readable).value|
    ensures var record := ListSpec(files, readable).value[id - 1];
            var restored := if record.active then record.name else record.name + ActiveSuffix;
            forall n :: ActiveEntry(RestoreOp(files, readable, id).files, n) <==> n == restored
    ensures Consistent(RestoreOp(files, readable, id).files)
  {
    RestoreShape(files, readable, id);
    ChosenRecord(files, readable, id);
    var record := ListSpec(files, readable).value[id - 1];
    if !record.active {
      StashThenActivate(files, readable, record.name);
    }
  }

  /** The record a position chooses is a regular file of the directory,
      active exactly when its name ends in the suffix. */
  lemma ChosenRecord(files: Dir, readable: bool, id: int)
    requires ListSpec(files, readable).Success? && 1 <= id <= |ListSpec(files, readable).value|
    ensures var record := ListSpec(files, readable).value[id - 1];
            record.name in files && files[record.name].regular && record.active == IsActiveName(record.name)
  {
    var records := ListSpec(files, readable).value;
    ListingRecords(files, readable, true);
    assert records[id - 1] in records;
  }

  /** Removing a file from a directory that lists removes its record from
      the listing and no other. */
  lemma ListingWithout(files: Dir, readable: bool, name: string)
    requires ListSpec(files, readable).Success?
    ensures ListSpec(files - {name}, readable).Success?
    ensures forall n :: n in Names(ListSpec(files - {name}, readable).value) <==> n in Names(ListSpec(files, readable).value) && n != name
  {
    ListingSucceeds(files, readable, true);
    ListingSucceeds(files - {name}, readable, true);
    ListingNames(files, readable, true);
    ListingNames(files - {name}, readable, true);
  }

  /** Delete removes the chosen session's file and nothing else, so the next
      listing names every session listed before except that one. */
  lemma DeleteRemoves(files: Dir, readable: bool, id: int)
    requires id >= 1
    requires DeleteOp(files, readable, id).result.Success?
    ensures ListSpec(files, readable).Success? && id <= |ListSpec(files, readable).value|
    ensures DeleteOp(files, readable, id).files == files - {ListSpec(files, readable).value[id - 1].name}
    ensures ListSpec(DeleteOp(files, readable, id).files, readable).Success?
    ensures forall n :: n in Names(ListSpec(DeleteOp(files, readable, id).files, readable).value) <==>
              n in Names(ListSpec(files, readable).value) && n != ListSpec(files, readable).value[id - 1].name
  {
    ListingWithout(files, readable, ListSpec(files, readable).value[id - 1].name);
  }

  lemma DeleteKeepsConsistent(files: Dir, readable: bool, id: int)
    requires Consistent(files) && id >= 1
    ensures Consistent(DeleteOp(files, readable, id).files)
  {
    match ListSpec(files, readable)
    case Failure(_) =>
    case Success(records) =>
      if id <= |records| {
        RemoveKeepsConsistent(files, records[id - 1].name);
      }
  }

  lemma RemoveKeepsConsistent(files: Dir, name: string)
    requires Consistent(files)
    ensures Consistent(files - {name})
  {
    var remaining := files - {name};
    assert forall n :: n in remaining ==> n in files && remaining[n] == files[n];
  }

  lemma RestoreKeepsConsistent(files: Dir, readable: bool, id: int)
    requires Consistent(files) && id >= 1
    ensures Consistent(RestoreOp(files, readable, id).files)
  {
    if RestoreOp(files, readable, id).result.Success? {
      RestoreActivates(files, readable, id);
    } else if ListSpec(files, readable).Success? && id <= |ListSpec(files, readable).value| {
      StashKeepsConsistent(files, readable);
    }
  }

  /** After DeleteAll the (recreated) directory lists no sessions. */
  lemma EmptyListing(readable: bool)
    ensures ListSpec(map[], readable) == if readable then Success([]) else Failure(DirUnreadable)
  {
    var none: Dir := map[];
    assert Entries(none) == [];
  }

  /** Once a prefix of the entries fails to list, so do all the entries. */
  lemma {:induction false} CollectFailureExtends(names: seq<string>, files: Dir, corrected: bool, j: nat)
    requires Listed(names, files) && j <= |names|
    requires Collect(names[..j], files, corrected).Failure?
    ensures Collect(names, files, corrected) == Collect(names[..j], files, corrected)
    decreases |names| - j
  {
    if j < |names| {
      assert names[..j + 1][..j] == names[..j];
      CollectFailureExtends(names, files, corrected, j + 1);
    } else {
      assert names[..j] == names;
    }
  }

  /** One more entry of the scan for the active session. */
  lemma FirstActiveStep(names: seq<string>, files: Dir, i: nat)
    requires i < |names|
    ensures FirstActive(names[i..], files) ==
              if ActiveEntry(files, names[i]) then Some(names[i]) else FirstActive(names[i + 1..], files)
  {
    assert names[i..][1..] == names[i + 1..];
  }

  /** One more entry of the listing loop. */
  lemma CollectStep(names: seq<string>, files: Dir, corrected: bool, i: nat, rest: seq<Record>)
    requires Listed(names, files) && i < |names|
    requires Collect(names[..i], files, corrected) == Success(rest)
    ensures var n := names[i];
            var summary := Summary(corrected, n, files[n].content);
            Collect(names[..i + 1], files, corrected) ==
              if !files[n].regular then Success(rest)
              else if summary.Failure? then Failure(summary.error)
              else Success(rest + [Record(i + 1, n, summary.value, files[n].mtime, IsActiveName(n))])
  {
    assert names[..i + 1][..i] == names[..i];
  }

  /** The loop of activeSessionFilePath: the first regular entry whose name
      ends in the suffix. */
  method ScanActive(names: seq<string>, files: Dir) returns (r: Option<string>)
    ensures r == FirstActive(names, files)
  {
    var i := 0;
    while i < |names|
      invariant 0 <= i <= |names|
      invariant FirstActive(names[i..], files) == FirstActive(names, files)
    {
      FirstActiveStep(names, files, i);
      if names[i] in files && files[names[i]].regular && IsActiveName(names[i]) {
        return Some(names[i]);
      }
      i := i + 1;
    }
    assert names[i..] == [];
    return None;
  }

  /** The loop of List: a record for each regular entry, in order, stopping
      at the first that cannot be summarised. */
  method Summaries(names: seq<string>, files: Dir, corrected: bool) returns (r: Result<seq<Record>, SessionError>)
    requires Listed(names, files)
    ensures r == Collect(names, files, corrected)
  {
    var records: seq<Record> := [];
    var i := 0;
    while i < |names|
      invariant 0 <= i <= |names|
      invariant Listed(names[..i], files)
      invariant Collect(names[..i], files, corrected) == Success(records)
    {
      var name := names[i];
      CollectStep(names, files, corrected, i, records);
      if files[name].regular {
        var summary := Summary(corrected, name, files[name].content);
        if summary.Failure? {
          CollectFailureExtends(names, files, corrected, i + 1);
          return Failure(summary.error);
        }
        records := records + [Record(i + 1, name, summary.value, files[name].mtime, IsActiveName(name))];
      }
      i := i + 1;
    }
    assert names[..i] == names;
    return Success(records);
  }

  /** The scenario behind the finding: the first Read in an empty directory
      creates a blank active file; until a Write fills it, List as written
      fails, while the corrected List shows one active, empty session. */
  lemma FirstReadBreaksListing(clock: Clock)
    ensures var created := map[FreshName(clock) := DirEntry(Blank, clock.mtime, RegularFile)];
            ReadOp(map[], true, clock) == Outcome(Success([]), created)
            && ListAsWritten(created, true) == Failure(Unsummarisable(FreshName(clock)))
            && ListSpec(created, true) == Success([Record(1, FreshName(clock), NoContent, clock.mtime, true)])
  {
    var none: Dir := map[];
    assert Entries(none) == [];
    var name := FreshName(clock);
    var created := map[name := DirEntry(Blank, clock.mtime, RegularFile)];
    var names := Entries(created);
    assert names[0] == name;
    assert names == [name];
    assert names[..0] == [];
    assert Collect(names, created, false) == Failure(Unsummarisable(name));
    var record := Record(1, name, NoContent, clock.mtime, true);
    assert Collect(names[..0], created, true) == Success([]);
    CollectStep(names, created, true, 0, []);
    assert names[..1] == names;
    assert [] + [record] == [record];
    assert Collect(names, created, true) == Success([record]);
    assert [record][..0] == [];
    assert SortByTime([record]) == [record];
  }

  // ---------------------------------------------------------------------
  // The store

  /** The session store of one application directory. */
  class Store {
    const appDir: string
    /** Whether the session directory can be read (os.ReadDir). */
    const readable: bool
    var dirExists: bool
    var files: Dir

    ghost predicate Valid()
      reads this
    {
      appDir != "" && (!dirExists ==> files == map[]) && Consistent(files)
    }

    /** sessionDir panics on an empty application directory. */
    constructor(appDir: string, readable: bool)
      requires appDir != ""
      ensures Valid() && this.appDir == appDir && this.readable == readable
      ensures !dirExists && files == map[]
    {
      this.appDir := appDir;
      this.readable := readable;
      dirExists := false;
      files := map[];
    }

    /** sessionDir: the session directory, created when it is missing. */
    method SessionDir() returns (path: string)
      requires Valid()
      modifies this
      ensures Valid() && dirExists && files == old(files)
      ensures path == appDir + "/session"
    {
      dirExists := true;
      path := appDir + "/session";
    }

    /** activeSessionFilePath: the first regular entry, in name order,
        whose name ends in the suffix. */
    method ActiveSessionFilePath() returns (r: Result<Option<string>, SessionError>)
      requires Valid()
      modifies this
      ensures Valid() && dirExists && files == old(files)
      ensures r == ActiveSession(files, readable)
    {
      var dir := SessionDir();
      if !readable {
        return Failure(DirUnreadable);
      }
      var active := ScanActive(Entries(files), files);
      return Success(active);
    }

    /** openActiveSessionFile: the active session file's name, the file
        created empty under a new name when no session is active. */
    method OpenActive(clock: Clock) returns (r: Result<string, SessionError>)
      requires Valid()
      modifies this
      ensures Valid() && dirExists
      ensures Outcome(r, files) == Open(old(files), readable, clock)
    {
      OpenKeepsConsistent(files, readable, clock);
      var dir := SessionDir();
      var active := ActiveSessionFilePath();
      if active.Failure? {
        return Failure(active.error);
      }
      if active.value.Some? {
        return Success(active.value.value);
      }
      var name := FreshName(clock);
      if name in files {
        return Failure(OpenFailed(name));
      }
      files := files[name := DirEntry(Blank, clock.mtime, RegularFile)];
      return Success(name);
    }

    /** Read: the messages of the active session. */
    method Read(clock: Clock) returns (r: Result<seq<Message>, SessionError>)
      requires Valid()
      modifies this
      ensures Valid() && dirExists
      ensures Outcome(r, files) == ReadOp(old(files), readable, clock)
    {
      var name :- OpenActive(clock);
      match files[name].content
      case Blank => return Success([]);
      case Messages(ms) => return Success(ms);
      case Malformed => return Failure(Undecodable(name));
    }

    /** Write: the active session rewritten with the exchange appended. */
    method Write(entry: Entry, clock: Clock) returns (r: Result<(), SessionError>)
      requires Valid()
      modifies this
      ensures Valid() && dirExists
      ensures Outcome(r, files) == WriteOp(old(files), readable, entry, clock)
    {
      var messages :- Read(clock);
      var name :- OpenActive(clock);
      RewriteKeepsConsistent(files, name, DirEntry(Messages(messages + Exchange(entry)), clock.mtime, RegularFile));
      files := files[name := DirEntry(Messages(messages + Exchange(entry)), clock.mtime, RegularFile)];
      return Success(());
    }

    /** Stash: the active session file, if any, renamed without its suffix. */
    method Stash() returns (r: Result<(), SessionError>)
      requires Valid()
      modifies this
      ensures Valid() && dirExists
      ensures Outcome(r, files) == StashOp(old(files), readable)
    {
      StashKeepsConsistent(files, readable);
      var active :- ActiveSessionFilePath();
      if active.None? {
        return Success(());
      }
      var target := TrimSuffix(active.value, ActiveSuffix);
      if !CanMove(files, active.value, target) {
        return Failure(RenameFailed(active.value, target));
      }
      files := Moved(files, active.value, target);
      return Success(());
    }

    /** The listing of List, with a blank session file either failing, as
        session.go summarises it, or summarised as an empty session. */
    method Records(corrected: bool) returns (r: Result<seq<Record>, SessionError>)
      requires Valid()
      modifies this
      ensures Valid() && dirExists && files == old(files)
      ensures r == Listing(files, readable, corrected)
    {
      var dir := SessionDir();
      if !readable {
        return Failure(DirUnreadable);
      }
      var records :- Summaries(Entries(files), files, corrected);
      return Success(SortByTime(records));
    }

    /** List: a record per regular session file, ordered by modification
        time; it fails on a blank session file. */
    method List() returns (r: Result<seq<Record>, SessionError>)
      requires Valid()
      modifies this
      ensures Valid() && dirExists && files == old(files)
      ensures r == ListAsWritten(files, readable)
    {
      r := Records(false);
    }

    /** Restore: the listed session at position `id` (from 1) made active. */
    method Restore(id: int) returns (r: Result<(), SessionError>)
      requires Valid() && id >= 1
      modifies this
      ensures Valid() && dirExists
      ensures Outcome(r, files) == RestoreOp(old(files), readable, id)
    {
      RestoreKeepsConsistent(files, readable, id);
      var records :- Records(true);
      if id > |records| {
        return Failure(InvalidRecord(id));
      }
      var record := records[id - 1];
      if record.active {
        return Success(());
      }
      var dir := SessionDir();
      var stashed :- Stash();
      var target := record.name + ActiveSuffix;
      if !CanMove(files, record.name, target) {
        return Failure(RenameFailed(record.name, target));
      }
      files := Moved(files, record.name, target);
      return Success(());
    }

    /** Delete: the listed session at position `id` (from 1) removed. */
    method Delete(id: int) returns (r: Result<(), SessionError>)
      requires Valid() && id >= 1
      modifies this
      ensures Valid() && dirExists
      ensures Outcome(r, files) == DeleteOp(old(files), readable, id)
    {
      DeleteKeepsConsistent(files, readable, id);
      var records :- Records(true);
      if id > |records| {
        return Failure(InvalidRecord(id));
      }
      var dir := SessionDir();
      files := files - {records[id - 1].name};
      return Success(());
    }

    /** DeleteAll: the whole session directory removed. */
    method DeleteAll() returns (r: Result<(), SessionError>)
      requires Valid()
      modifies this
      ensures Valid() && !dirExists && files == map[]
      ensures r.Success?
    {
      var dir := SessionDir();
      files := map[];
      dirExists := false;
      return Success(());
    }
  }
}
