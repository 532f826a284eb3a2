/**
 The migration runner: an append-only journal of applied files, read back before every run.

 A run is given the migration files in name order and the set of files at which it fails before committing.
 */
module Migrations {
  import opened Prelude
  import opened Text
  import opened SqlScanner

  type Applied = map<string, string>

  // ---------------------------------------------------------------- the journal

  /** What one journal line adds: a name and a hash around the first bar, or a bare name. */
  function ReadEntry(m: Applied, line: string): Applied {
    var t := Trim(line);
    var bar := IndexOf(t, '|');
    if t == "" then m
    else if bar < |t| then m[t[..bar] := t[bar + 1..]]
    else m[t := ""]
  }

  function ReadEntries(m: Applied, lines: seq<string>): Applied
    decreases |lines|
  {
    if lines == [] then m else ReadEntries(ReadEntry(m, lines[0]), lines[1..])
  }

  function ReadJournal(text: string): Applied {
    ReadEntries(map[], Lines(text))
  }

  method ReadAppliedMigrations(text: string) returns (applied: Applied)
    ensures applied == ReadJournal(text)
  {
    applied := map[];
    var lines := Lines(text);
    for i := 0 to |lines|
      invariant ReadEntries(map[], lines) == ReadEntries(applied, lines[i..])
    {
      assert lines[i..][0] == lines[i] && lines[i..][1..] == lines[i + 1..];
      var line := Trim(lines[i]);
      if line != "" {
        var bar := IndexOf(line, '|');
        if bar < |line| {
          applied := applied[line[..bar] := line[bar + 1..]];
        } else {
          applied := applied[line := ""];
        }
      }
    }
  }

  function AppendEntry(text: string, name: string, hash: string): string {
    text + (name + "|" + hash) + "\n"
  }

  /** Empty, or ending with a line break: what the runner itself always leaves. */
  ghost predicate Terminated(text: string) {
    text == "" || text[|text| - 1] == '\n'
  }

  /** A name that survives the journal: no bar, no line break, no space in front. */
  ghost predicate IsName(name: string) {
    '|' !in name && '\n' !in name && (name != "" ==> !IsWhitespace(name[0]))
  }

  /** A hexadecimal digest. */
  ghost predicate IsDigest(h: string) {
    h != "" && forall i | 0 <= i < |h| :: '0' <= h[i] <= '9' || 'a' <= h[i] <= 'f'
  }

  /** After a terminated text, the lines of what follows are its own. */
  lemma {:induction false} LinesAfter(text: string, more: string)
    requires Terminated(text)
    ensures Lines(text + more) == Lines(text) + Lines(more)
    decreases |text|
  {
    if text == "" {
      assert text + more == more;
    } else {
      var n := BreakPosition(text);
      assert text == text[..n] + "\n" + text[n + 1..];
      LinesAfter(text[n + 1..], more);
      LinesAfterHead(text[..n], text[n + 1..], more, Lines(more));
    }
  }

  lemma {:induction false} LinesAfterHead(head: string, rest: string, more: string, tail: seq<string>)
    requires '\n' !in head && Lines(rest + more) == Lines(rest) + tail
    ensures Lines(head + "\n" + rest + more) == Lines(head + "\n" + rest) + tail
  {
    LinesStep(head, rest);
    LinesStep(head, rest + more);
    ConcatAssoc(head + "\n", rest, more);
    ConcatAssoc([StripCr(head)], Lines(rest), tail);
  }

  /** Where the first line of a terminated text ends. */
  lemma {:induction false} BreakPosition(text: string) returns (n: nat)
    requires text != "" && Terminated(text)
    ensures n < |text| && text[n] == '\n' && '\n' !in text[..n] && Terminated(text[n + 1..])
  {
    n := IndexOf(text, '\n');
    assert text[|text| - 1] in text && text[..|text|] == text;
  }

  lemma {:induction false} ReadEntriesAppend(m: Applied, a: seq<string>, line: string)
    ensures ReadEntries(m, a + [line]) == ReadEntry(ReadEntries(m, a), line)
    decreases |a|
  {
    if a == [] {
      assert [] + [line] == [line] && [line][1..] == [];
      assert ReadEntries(m, [line]) == ReadEntries(ReadEntry(m, line), []);
    } else {
      assert (a + [line])[1..] == a[1..] + [line];
      ReadEntriesAppend(ReadEntry(m, a[0]), a[1..], line);
    }
  }

  lemma {:induction false} TrimmedEntry(name: string, hash: string)
    requires IsName(name) && IsDigest(hash)
    ensures Trim(name + "|" + hash) == name + "|" + hash
  {
    var line := name + "|" + hash;
    assert line[0] == if name == "" then '|' else name[0];
    assert !IsWhitespace(line[0]) && TrimStart(line) == line;
    assert line[|line| - 1] == hash[|hash| - 1];
    assert !IsWhitespace(line[|line| - 1]) && TrimEnd(line) == line;
  }

  /** Reading after an append is the old reading updated at that name. */
  lemma {:induction false} AppendReadsBack(text: string, name: string, hash: string)
    requires Terminated(text) && IsName(name) && IsDigest(hash)
    ensures ReadJournal(AppendEntry(text, name, hash)) == ReadJournal(text)[name := hash]
    ensures Terminated(AppendEntry(text, name, hash))
  {
    var line := name + "|" + hash;
    EntryIsLine("", name, hash);
    assert "" + line == line;
    ReadsAppended(text, line);
    ReadOwnEntry(ReadJournal(text), name, hash);
  }

  lemma {:induction false} EntryIsLine(last: string, name: string, hash: string)
    requires '\n' !in last && IsName(name) && IsDigest(hash)
    ensures IsLine(last + (name + "|" + hash))
  {
    var line := last + (name + "|" + hash);
    assert '\n' !in hash;
    assert line[|line| - 1] == hash[|hash| - 1];
  }

  lemma {:induction false} ReadOwnEntry(m: Applied, name: string, hash: string)
    requires IsName(name) && IsDigest(hash)
    ensures ReadEntry(m, name + "|" + hash) == m[name := hash]
  {
    var line := name + "|" + hash;
    TrimmedEntry(name, hash);
    assert line == name + ['|'] + hash;
    IndexOfFirst(name, '|', hash);
    assert line[..|name|] == name && line[|name| + 1..] == hash;
  }

  // ---------------------------------------------------------------- a journal without its last line break

  /** Every journal is a terminated part and what follows its last line break. */
  lemma {:induction false} SplitJournal(journal: string) returns (text: string, last: string)
    ensures journal == text + last && Terminated(text) && '\n' !in last
  {
    if journal == "" || journal[|journal| - 1] == '\n' {
      text, last := journal, "";
    } else {
      var n := |journal| - 1;
      text, last := SplitJournal(journal[..n]);
      last := last + [journal[n]];
      assert journal == journal[..n] + [journal[n]];
    }
  }

  /**
   Both readings in terms of the terminated part: before the append the last line is an entry, after it a part of one.
   */
  lemma {:induction false} ReadingsAround(text: string, last: string, name: string, hash: string)
    requires Terminated(text) && '\n' !in last && IsName(name) && IsDigest(hash)
    ensures ReadJournal(text + last) == ReadEntry(ReadJournal(text), last)
    ensures ReadJournal(AppendEntry(text + last, name, hash))
      == ReadEntry(ReadJournal(text), last + (name + "|" + hash))
  {
    ReadsLast(text, last);
    EntryIsLine(last, name, hash);
    ReadsAppended(text, last + (name + "|" + hash));
    ConcatAssoc(text, last, name + "|" + hash);
  }

  lemma {:induction false} ReadsLast(text: string, last: string)
    requires Terminated(text) && '\n' !in last
    ensures ReadJournal(text + last) == ReadEntry(ReadJournal(text), last)
  {
    LinesAfter(text, last);
    IndexOfNone(last, '\n');
    if last == "" {
      assert Lines(text) + [] == Lines(text);
    } else {
      ReadEntriesAppend(map[], Lines(text), last);
    }
  }

  lemma {:induction false} ReadsAppended(text: string, line: string)
    requires Terminated(text) && IsLine(line)
    ensures ReadJournal(text + line + "\n") == ReadEntry(ReadJournal(text), line)
  {
    LinesAfter(text, line + "\n");
    assert Lines(line + "\n") == [line] by {
      LinesStep(line, "");
      assert line + "\n" + "" == line + "\n";
      assert StripCr(line) == line && Lines("") == [];
    }
    ConcatAssoc(text, line, "\n");
    ReadEntriesAppend(map[], Lines(text), line);
  }

  lemma {:induction false} GluedTrim(last: string, name: string, hash: string)
    requires IsName(name) && IsDigest(hash)
    ensures Trim(last + (name + "|" + hash)) == TrimStart(last) + (name + "|" + hash)
  {
    var entry := name + "|" + hash;
    TrimStartAppend(last, entry);
    TrimmedEntry(name, hash);
    TrimIsEmptyIff(entry);
    var t := TrimStart(last) + entry;
    assert entry[0] == if name == "" then '|' else name[0];
    assert TrimStart(last) == "" ==> t == entry;
    assert t[|t| - 1] == hash[|hash| - 1];
    assert TrimEnd(t) == t;
  }

  /** A line with a bar is read as the name before it and the rest without spaces at the end. */
  lemma {:induction false} BarEntry(m: Applied, last: string)
    requires '|' in TrimStart(last)
    ensures var l := TrimStart(last); var bar := IndexOf(l, '|');
      bar < |Trim(last)| && ReadEntry(m, last) == m[l[..bar] := Trim(last)[bar + 1..]]
  {
    var l := TrimStart(last);
    assert l[..|l|] == l;
    TrimEndKeeps(l, IndexOf(l, '|'));
    IndexOfInPrefix(Trim(last), l, '|');
    assert Trim(last)[..IndexOf(l, '|')] == l[..IndexOf(l, '|')];
  }

  /** With the entry glued to it, it is read under the same name. */
  lemma {:induction false} GluedAfterBar(m: Applied, last: string, name: string, hash: string)
    requires IsName(name) && IsDigest(hash) && '|' in TrimStart(last)
    ensures var l := TrimStart(last); var bar := IndexOf(l, '|');
      bar < |l| && ReadEntry(m, last + (name + "|" + hash)) == m[l[..bar] := l[bar + 1..] + (name + "|" + hash)]
  {
    assert TrimStart(last)[..|TrimStart(last)|] == TrimStart(last);
    GluedTrim(last, name, hash);
    IndexOfExtended(TrimStart(last), '|', name + "|" + hash);
  }

  /** Without a bar, the last line and the name become one name. */
  lemma {:induction false} GluedWithoutBar(m: Applied, last: string, name: string, hash: string)
    requires IsName(name) && IsDigest(hash) && '|' !in TrimStart(last)
    ensures ReadEntry(m, last + (name + "|" + hash)) == m[TrimStart(last) + name := hash]
  {
    var l := TrimStart(last);
    GluedTrim(last, name, hash);
    ConcatAssoc(l, name, "|" + hash);
    assert name + "|" + hash == name + ("|" + hash);
    ReadBareEntry(m, last + (name + "|" + hash), l + name, hash);
  }

  lemma {:induction false} ReadBareEntry(m: Applied, line: string, name: string, hash: string)
    requires Trim(line) == name + ("|" + hash) && '|' !in name
    ensures ReadEntry(m, line) == m[name := hash]
  {
    var t := name + ("|" + hash);
    assert t == name + ['|'] + hash;
    IndexOfFirst(name, '|', hash);
    assert t[..|name|] == name && t[|name| + 1..] == hash;
  }

  /**
   Appending to any journal records a name that is not in it if and only if what follows the journal's last line break
   is blank; then the reading is the old one updated at that name.
   */
  lemma {:induction false} AppendRecordsIff(text: string, last: string, name: string, hash: string)
    requires Terminated(text) && '\n' !in last && IsName(name) && IsDigest(hash)
    requires name !in ReadJournal(text + last)
    ensures name in ReadJournal(AppendEntry(text + last, name, hash)) <==> Trim(last) == ""
    ensures Trim(last) == "" ==>
      ReadJournal(AppendEntry(text + last, name, hash)) == ReadJournal(text + last)[name := hash]
  {
    ReadingsAround(text, last, name, hash);
    GluedRecordsIff(ReadJournal(text), last, name, hash);
  }

  lemma {:induction false} GluedRecordsIff(m: Applied, last: string, name: string, hash: string)
    requires IsName(name) && IsDigest(hash) && name !in ReadEntry(m, last)
    ensures name in ReadEntry(m, last + (name + "|" + hash)) <==> Trim(last) == ""
    ensures Trim(last) == "" ==> ReadEntry(m, last + (name + "|" + hash)) == ReadEntry(m, last)[name := hash]
  {
    TrimIsEmptyIff(last);
    if '|' in TrimStart(last) {
      BarEntry(m, last);
      GluedAfterBar(m, last, name, hash);
    } else {
      GluedWithoutBar(m, last, name, hash);
      assert |TrimStart(last) + name| == |TrimStart(last)| + |name|;
      assert Trim(last) == "" ==> TrimStart(last) + name == name;
      assert m.Keys <= ReadEntry(m, last).Keys;
    }
  }

  /** After a line of the runner's own that lost its break, the old file's hash takes up the new entry. */
  lemma {:induction false} RunnerLineIsCorrupted(text: string, earlier: string, earlierHash: string, name: string,
      hash: string)
    requires Terminated(text) && IsName(earlier) && IsDigest(earlierHash) && IsName(name) && IsDigest(hash)
    ensures ReadJournal(text + (earlier + "|" + earlierHash)) == ReadJournal(text)[earlier := earlierHash]
    ensures ReadJournal(AppendEntry(text + (earlier + "|" + earlierHash), name, hash))
         == ReadJournal(text)[earlier := earlierHash + (name + "|" + hash)]
  {
    var last := earlier + "|" + earlierHash;
    EntryIsLine("", earlier, earlierHash);
    assert "" + last == last;
    ReadingsAround(text, last, name, hash);
    ReadOwnEntry(ReadJournal(text), earlier, earlierHash);
    GluedOwnEntry(ReadJournal(text), earlier, earlierHash, name, hash);
  }

  lemma {:induction false} GluedOwnEntry(m: Applied, earlier: string, earlierHash: string, name: string, hash: string)
    requires IsName(earlier) && IsDigest(earlierHash) && IsName(name) && IsDigest(hash)
    ensures ReadEntry(m, (earlier + "|" + earlierHash) + (name + "|" + hash))
         == m[earlier := earlierHash + (name + "|" + hash)]
  {
    EntryShape(earlier, earlierHash);
    GluedAfterBar(m, earlier + "|" + earlierHash, name, hash);
  }

  lemma {:induction false} EntryShape(name: string, hash: string)
    requires IsName(name) && IsDigest(hash)
    ensures var line := name + "|" + hash;
      && TrimStart(line) == line && '|' in line
      && IndexOf(line, '|') == |name| && line[..|name|] == name && line[|name| + 1..] == hash
  {
    var line := name + "|" + hash;
    assert line[0] == if name == "" then '|' else name[0];
    assert line == name + ['|'] + hash && line[|name|] == '|';
    IndexOfFirst(name, '|', hash);
  }

  /** For instance "b" is lost, and "a" drifts. */
  lemma {:induction false} UnterminatedJournalSwallowsName()
    ensures ReadJournal(AppendEntry("a|0", "b", "1")) == map["a" := "0b|1"]
  {
    assert "a|0" == "" + ("a" + "|" + "0") && "0b|1" == "0" + ("b" + "|" + "1");
    assert ReadJournal("") == map[];
    RunnerLineIsCorrupted("", "a", "0", "b", "1");
  }

  // ---------------------------------------------------------------- runs

  datatype File = File(name: string, sql: string)

  /** Committed and skipped file names in the order in which that happened, and the journal. */
  datatype Db = Db(committed: seq<string>, skipped: seq<string>, journal: string)

  type Digest = string -> string

  /** File names sort by character. */
  predicate Before(a: string, b: string) {
    if b == "" then false
    else if a == "" then true
    else a[0] < b[0] || (a[0] == b[0] && Before(a[1..], b[1..]))
  }

  /** The migration files of a run: names that survive the journal, strictly ascending. */
  ghost predicate IsListing(files: seq<File>) {
    && (forall i | 0 <= i < |files| :: IsName(files[i].name))
    && (forall i, j | 0 <= i < j < |files| :: Before(files[i].name, files[j].name))
  }

  function Pending(files: seq<File>, applied: Applied): (r: seq<File>)
    ensures forall f | f in r :: f in files && f.name !in applied
  {
    if files == [] then []
    else (if files[0].name in applied then [] else [files[0]]) + Pending(files[1..], applied)
  }

  function ApplyOne(f: File, digest: Digest, db: Db): Db {
    var journal := AppendEntry(db.journal, f.name, digest(f.sql));
    if HasSql(f.sql) then Db(db.committed + [f.name], db.skipped, journal)
    else Db(db.committed, db.skipped + [f.name], journal)
  }

  /** Applies the pending files in order, up to the first at which the run fails. */
  function ApplyAll(files: seq<File>, fails: set<string>, digest: Digest, db: Db): (bool, Db)
    decreases |files|
  {
    if files == [] then (true, db)
    else if files[0].name in fails then (false, db)
    else ApplyAll(files[1..], fails, digest, ApplyOne(files[0], digest, db))
  }

  function Migrate(files: seq<File>, fails: set<string>, digest: Digest, db: Db): (bool, Db) {
    ApplyAll(Pending(files, ReadJournal(db.journal)), fails, digest, db)
  }

  class Workspace {
    var journal: string
    ghost var committed: seq<string>
    ghost var skipped: seq<string>

    constructor ()
      ensures State() == Db([], [], "")
    {
      journal, committed, skipped := "", [], [];
    }

    ghost function State(): Db
      reads this
    {
      Db(committed, skipped, journal)
    }

    method AppendAppliedMigration(name: string, hash: string)
      modifies this`journal
      ensures journal == AppendEntry(old(journal), name, hash)
    {
      journal := journal + (name + "|" + hash) + "\n";
    }

    method DbMigrate(files: seq<File>, fails: set<string>, digest: Digest) returns (ok: bool)
      modifies this
      ensures (ok, State()) == Migrate(files, fails, digest, old(State()))
    {
      var applied := ReadAppliedMigrations(journal);
      var pending := Pending(files, applied);
      ghost var start := State();
      for i := 0 to |pending|
        invariant ApplyAll(pending, fails, digest, start) == ApplyAll(pending[i..], fails, digest, State())
      {
        var f := pending[i];
        assert pending[i..][0] == f && pending[i..][1..] == pending[i + 1..];
        if f.name in fails {
          return false;
        }
        var found := ContainsSqlContent(f.sql);
        if found {
          committed := committed + [f.name];
        } else {
          skipped := skipped + [f.name];
        }
        AppendAppliedMigration(f.name, digest(f.sql));
      }
      return true;
    }

    /** Counts the files that are applied unchanged, pending, or changed since they were applied. */
    method DbStatus(files: seq<File>, digest: Digest) returns (appliedCount: nat, pendingCount: nat, driftCount: nat)
      ensures pendingCount == |Marked(ArePending(files, ReadJournal(journal)))|
      ensures driftCount == |Marked(AreDrifted(files, ReadJournal(journal), digest))|
      ensures appliedCount + pendingCount + driftCount == |files|
    {
      var applied := ReadAppliedMigrations(journal);
      appliedCount, pendingCount, driftCount := 0, 0, 0;
      ghost var pending, drifted := ArePending(files, applied), AreDrifted(files, applied, digest);
      for i := 0 to |files|
        invariant pendingCount == |Marked(pending[..i])|
        invariant driftCount == |Marked(drifted[..i])|
        invariant appliedCount + pendingCount + driftCount == i
      {
        MarkedSnoc(pending, i);
        MarkedSnoc(drifted, i);
        var f := files[i];
        if f.name in applied {
          if applied[f.name] == "" || applied[f.name] == digest(f.sql) {
            appliedCount := appliedCount + 1;
          } else {
            driftCount := driftCount + 1;
          }
        } else {
          pendingCount := pendingCount + 1;
        }
      }
      assert pending[..|files|] == pending && drifted[..|files|] == drifted;
    }
  }

  datatype Status = AppliedFile | PendingFile | DriftedFile

  function Classify(f: File, applied: Applied, digest: Digest): Status {
    if f.name !in applied then PendingFile else if HasDrifted(f, applied, digest) then DriftedFile else AppliedFile
  }

  /** The journal names the file under another content. */
  predicate HasDrifted(f: File, applied: Applied, digest: Digest) {
    f.name in applied && applied[f.name] != "" && applied[f.name] != digest(f.sql)
  }

  ghost function ArePending(files: seq<File>, applied: Applied): (marks: seq<bool>)
    ensures |marks| == |files| && forall i | 0 <= i < |files| :: marks[i] == (files[i].name !in applied)
  {
    seq(|files|, i requires 0 <= i < |files| => files[i].name !in applied)
  }

  ghost function AreDrifted(files: seq<File>, applied: Applied, digest: Digest): (marks: seq<bool>)
    ensures |marks| == |files| && forall i | 0 <= i < |files| :: marks[i] == HasDrifted(files[i], applied, digest)
  {
    seq(|files|, i requires 0 <= i < |files| => HasDrifted(files[i], applied, digest))
  }

  /** The places at which a mark is set. */
  ghost function Marked(marks: seq<bool>): set<nat> {
    set i: nat | i < |marks| && marks[i]
  }

  lemma {:induction false} MarkedSnoc(marks: seq<bool>, n: nat)
    requires n < |marks|
    ensures |Marked(marks[..n + 1])| == |Marked(marks[..n])| + if marks[n] then 1 else 0
  {
    assert Marked(marks[..n + 1]) == Marked(marks[..n]) + if marks[n] then {n} else {};
  }

  // ---------------------------------------------------------------- what every run keeps

  /** The journal lists exactly the committed and the skipped files, and each of those only once. */
  ghost predicate InStep(db: Db) {
    && Terminated(db.journal)
    && Distinct(db.committed) && Distinct(db.skipped) && (forall n | n in db.committed :: n !in db.skipped)
    && ReadJournal(db.journal).Keys == Elems(db.committed) + Elems(db.skipped)
  }

  /** From `db` to `db'` one run moved forward: journal entries stay, new commits are pending files in file order. */
  ghost predicate Advances(files: seq<File>, db: Db, db': Db) {
    && Commits(files, db.committed, db'.committed) && db.skipped <= db'.skipped
    && Extends(ReadJournal(db.journal), ReadJournal(db'.journal))
  }

  /** What was committed stays, and what is new are files of the listing, in its order. */
  ghost predicate Commits(files: seq<File>, c: seq<string>, c': seq<string>) {
    && c <= c' && Ascending(c'[|c|..])
    && (forall n | n in c'[|c|..] :: IsFileName(files, n))
  }

  ghost predicate IsFileName(files: seq<File>, n: string) {
    exists i :: 0 <= i < |files| && files[i].name == n
  }

  ghost predicate Extends(m: Applied, m': Applied) {
    forall n | n in m :: n in m' && m'[n] == m[n]
  }

  ghost predicate Ascending(names: seq<string>) {
    forall i, j | 0 <= i < j < |names| :: Before(names[i], names[j])
  }

  lemma {:induction false} BeforeIsIrreflexive(a: string)
    ensures !Before(a, a)
  {
    if a != "" {
      BeforeIsIrreflexive(a[1..]);
    }
  }

  ghost predicate HexDigest(digest: Digest) {
    forall s :: IsDigest(digest(s))
  }

  lemma {:induction false} ApplyOneKeepsStep(f: File, digest: Digest, db: Db)
    requires HexDigest(digest) && InStep(db) && IsName(f.name) && f.name !in ReadJournal(db.journal)
    ensures InStep(ApplyOne(f, digest, db))
    ensures ReadJournal(ApplyOne(f, digest, db).journal) == ReadJournal(db.journal)[f.name := digest(f.sql)]
  {
    AppendReadsBack(db.journal, f.name, digest(f.sql));
    var db' := ApplyOne(f, digest, db);
    assert f.name !in db.committed && f.name !in db.skipped;
    DistinctAppend(db.committed, [f.name]);
    DistinctAppend(db.skipped, [f.name]);
    assert Elems(db.committed + [f.name]) == Elems(db.committed) + {f.name};
    assert Elems(db.skipped + [f.name]) == Elems(db.skipped) + {f.name};
  }

  lemma {:induction false} PendingIsListing(files: seq<File>, applied: Applied)
    requires IsListing(files)
    ensures IsListing(Pending(files, applied))
    decreases |files|
  {
    if files != [] {
      PendingIsListing(files[1..], applied);
      var rest := Pending(files[1..], applied);
      forall f | f in rest
        ensures Before(files[0].name, f.name)
      {
        LaterFile(files, f.name);
      }
      assert IsListing([files[0]] + rest);
    }
  }

  lemma {:induction false} ApplyAllAdvances(files: seq<File>, fails: set<string>, digest: Digest, db: Db)
    requires HexDigest(digest) && InStep(db) && IsListing(files)
    requires forall f | f in files :: f.name !in ReadJournal(db.journal)
    ensures var (ok, db') := ApplyAll(files, fails, digest, db);
      && InStep(db') && Advances(files, db, db')
      && (ok ==> forall f | f in files ::
        f.name in ReadJournal(db'.journal) && ReadJournal(db'.journal)[f.name] == digest(f.sql))
    decreases |files|
  {
    if files != [] && files[0].name !in fails {
      var f := files[0];
      var db1 := ApplyOne(f, digest, db);
      ApplyOneKeepsStep(f, digest, db);
      forall g | g in files[1..]
        ensures g.name !in ReadJournal(db1.journal)
      {
        var k :| 0 <= k < |files[1..]| && files[1..][k] == g;
        assert Before(f.name, files[k + 1].name);
        BeforeIsIrreflexive(f.name);
      }
      ApplyAllAdvances(files[1..], fails, digest, db1);
      CommitsCons(files, db.committed, db1.committed, ApplyAll(files[1..], fails, digest, db1).1.committed);
    }
  }

  lemma {:induction false} CommitsCons(files: seq<File>, c: seq<string>, c1: seq<string>, c': seq<string>)
    requires files != [] && IsListing(files)
    requires c1 == c || c1 == c + [files[0].name]
    requires Commits(files[1..], c1, c')
    ensures Commits(files, c, c')
  {
    var n, later := files[0].name, c'[|c1|..];
    forall m | m in later
      ensures Before(n, m) && IsFileName(files, m)
    {
      LaterFile(files, m);
    }
    if c1 != c {
      assert Ascending([n] + later);
      assert c'[|c|..] == [n] + later;
      assert IsFileName(files, n);
    }
  }

  lemma {:induction false} LaterFile(files: seq<File>, n: string)
    requires files != [] && IsListing(files) && IsFileName(files[1..], n)
    ensures Before(files[0].name, n) && IsFileName(files, n)
  {
    var k :| 0 <= k < |files[1..]| && files[1..][k].name == n;
    assert files[k + 1].name == n;
  }

  /** One run, failing at any file: the journal stays in step, and what is new was committed in file-name order. */
  lemma {:induction false} MigrateAdvances(files: seq<File>, fails: set<string>, digest: Digest, db: Db)
    requires HexDigest(digest) && InStep(db) && IsListing(files)
    ensures var (ok, db') := Migrate(files, fails, digest, db);
      && InStep(db') && Advances(files, db, db')
      && (ok ==> forall f | f in files :: f.name in ReadJournal(db'.journal))
  {
    var applied := ReadJournal(db.journal);
    PendingIsListing(files, applied);
    ApplyAllAdvances(Pending(files, applied), fails, digest, db);
    var (ok, db') := Migrate(files, fails, digest, db);
    forall n | n in db'.committed[|db.committed|..]
      ensures IsFileName(files, n)
    {
      var k :| 0 <= k < |Pending(files, applied)| && Pending(files, applied)[k].name == n;
      assert Pending(files, applied)[k] in files;
    }
    if ok {
      forall f | f in files
        ensures f.name in ReadJournal(db'.journal)
      {
        if f.name !in applied {
          PendingKeeps(files, applied, f);
        }
      }
    }
  }

  lemma {:induction false} PendingKeeps(files: seq<File>, applied: Applied, f: File)
    requires f in files && f.name !in applied
    ensures f in Pending(files, applied)
    decreases |files|
  {
    if files[0] != f {
      PendingKeeps(files[1..], applied, f);
    }
  }

  // ---------------------------------------------------------------- exactly what one run applies

  /** The names of the files with SQL, or of those without, in order. */
  function NamesOf(files: seq<File>, withSql: bool): seq<string> {
    if files == [] then []
    else (if HasSql(files[0].sql) == withSql then [files[0].name] else []) + NamesOf(files[1..], withSql)
  }

  /** A journal's reading with each file recorded under its digest. */
  function Recorded(m: Applied, files: seq<File>, digest: Digest): Applied
    decreases |files|
  {
    if files == [] then m else Recorded(m[files[0].name := digest(files[0].sql)], files[1..], digest)
  }

  /** The run gets as far as the first file at which it fails, or through all files. */
  ghost predicate StopsAt(files: seq<File>, fails: set<string>, k: nat) {
    && k <= |files| && (forall i | 0 <= i < k :: files[i].name !in fails)
    && (k < |files| ==> files[k].name in fails)
  }

  lemma {:induction false} ApplyAllFirst(files: seq<File>, fails: set<string>, digest: Digest, db: Db) returns (k: nat)
    ensures StopsAt(files, fails, k)
    ensures var (ok, db') := ApplyAll(files, fails, digest, db);
      && (ok <==> k == |files|)
      && db'.committed == db.committed + NamesOf(files[..k], true)
      && db'.skipped == db.skipped + NamesOf(files[..k], false)
    decreases |files|
  {
    if files == [] || files[0].name in fails {
      k := 0;
    } else {
      var f, rest := files[0], files[1..];
      k := ApplyAllFirst(rest, fails, digest, ApplyOne(f, digest, db));
      var later := rest[..k];
      k := k + 1;
      assert files[..k][0] == f && files[..k][1..] == later;
      var with, without := if HasSql(f.sql) then [f.name] else [], if HasSql(f.sql) then [] else [f.name];
      ConcatAssoc(db.committed, with, NamesOf(later, true));
      ConcatAssoc(db.skipped, without, NamesOf(later, false));
      assert db.committed + [] == db.committed && db.skipped + [] == db.skipped;
    }
  }

  lemma {:induction false} RecordedCons(m: Applied, files: seq<File>, k: nat, digest: Digest)
    requires 0 < k <= |files|
    ensures Recorded(m, files[..k], digest)
      == Recorded(m[files[0].name := digest(files[0].sql)], files[1..][..k - 1], digest)
  {
    assert files[..k][0] == files[0] && files[..k][1..] == files[1..][..k - 1];
  }

  lemma {:induction false} ApplyOneRecords(f: File, digest: Digest, db: Db)
    requires HexDigest(digest) && Terminated(db.journal) && IsName(f.name)
    ensures var journal := ApplyOne(f, digest, db).journal;
      Terminated(journal) && ReadJournal(journal) == ReadJournal(db.journal)[f.name := digest(f.sql)]
  {
    AppendReadsBack(db.journal, f.name, digest(f.sql));
  }

  lemma {:induction false} ApplyAllRecords(files: seq<File>, fails: set<string>, digest: Digest, db: Db, k: nat)
    requires StopsAt(files, fails, k)
    requires HexDigest(digest) && Terminated(db.journal) && forall i | 0 <= i < |files| :: IsName(files[i].name)
    ensures var db' := ApplyAll(files, fails, digest, db).1;
      Terminated(db'.journal) && ReadJournal(db'.journal) == Recorded(ReadJournal(db.journal), files[..k], digest)
    decreases |files|
  {
    if k > 0 {
      ApplyOneRecords(files[0], digest, db);
      ApplyAllRecords(files[1..], fails, digest, ApplyOne(files[0], digest, db), k - 1);
      RecordedCons(ReadJournal(db.journal), files, k, digest);
    }
  }

  /**
   One run applies exactly the pending files before the first that fails, in order: it commits those with SQL, passes
   over the others, and records each under its digest. It is well exactly when no pending file fails.
   */
  lemma {:induction false} MigrateAppliesFirst(files: seq<File>, fails: set<string>, digest: Digest, db: Db)
      returns (k: nat)
    ensures var pending := Pending(files, ReadJournal(db.journal));
      var (ok, db') := Migrate(files, fails, digest, db);
      && StopsAt(pending, fails, k)
      && (ok <==> k == |pending|) && (ok <==> forall f | f in pending :: f.name !in fails)
      && db'.committed == db.committed + NamesOf(pending[..k], true)
      && db'.skipped == db.skipped + NamesOf(pending[..k], false)
      && (HexDigest(digest) && Terminated(db.journal) && IsListing(files) ==>
        ReadJournal(db'.journal) == Recorded(ReadJournal(db.journal), pending[..k], digest))
  {
    var pending := Pending(files, ReadJournal(db.journal));
    k := ApplyAllFirst(pending, fails, digest, db);
    if HexDigest(digest) && Terminated(db.journal) && IsListing(files) {
      PendingIsListing(files, ReadJournal(db.journal));
      ApplyAllRecords(pending, fails, digest, db, k);
    }
  }

  /** The pending files are those that the journal does not name, each at its place among them. */
  lemma {:induction false} PendingIff(files: seq<File>, applied: Applied, f: File)
    ensures f in Pending(files, applied) <==> f in files && f.name !in applied
    ensures IsListing(files) ==> IsListing(Pending(files, applied))
  {
    if f in files && f.name !in applied {
      PendingKeeps(files, applied, f);
    }
    if IsListing(files) {
      PendingIsListing(files, applied);
    }
  }

  datatype RunInput = RunInput(files: seq<File>, fails: set<string>)

  /** Any number of runs, with files added, changed or removed in between. */
  ghost function MigrateRuns(runs: seq<RunInput>, digest: Digest, db: Db): Db
    decreases |runs|
  {
    if runs == [] then db else MigrateRuns(runs[1..], digest, Migrate(runs[0].files, runs[0].fails, digest, db).1)
  }

  /**
   Over any sequence of runs from an empty workspace no script commits twice, and the journal is committed plus
   skipped.
   */
  lemma {:induction false} NoScriptCommitsTwice(runs: seq<RunInput>, digest: Digest, db: Db)
    requires HexDigest(digest) && InStep(db) && forall i | 0 <= i < |runs| :: IsListing(runs[i].files)
    ensures var db' := MigrateRuns(runs, digest, db);
      && Distinct(db'.committed)
      && ReadJournal(db'.journal).Keys == Elems(db'.committed) + Elems(db'.skipped)
      && db.committed <= db'.committed
    decreases |runs|
  {
    if runs != [] {
      MigrateAdvances(runs[0].files, runs[0].fails, digest, db);
      NoScriptCommitsTwice(runs[1..], digest, Migrate(runs[0].files, runs[0].fails, digest, db).1);
    }
  }

  lemma {:induction false} EmptyWorkspaceIsInStep()
    ensures InStep(Db([], [], ""))
  {
    assert Lines("") == [];
  }

  /**
   After a run that did not fail no file is pending, newly applied files are applied, and the others are as they were.
   */
  lemma {:induction false} StatusAfterMigrate(files: seq<File>, fails: set<string>, digest: Digest, db: Db, f: File)
    requires HexDigest(digest) && InStep(db) && IsListing(files) && f in files
    requires Migrate(files, fails, digest, db).0
    ensures var before, after := Classify(f, ReadJournal(db.journal), digest),
      Classify(f, ReadJournal(Migrate(files, fails, digest, db).1.journal), digest);
      after == if before == PendingFile then AppliedFile else before
  {
    var applied := ReadJournal(db.journal);
    PendingIsListing(files, applied);
    ApplyAllAdvances(Pending(files, applied), fails, digest, db);
    if f.name !in applied {
      PendingKeeps(files, applied, f);
    }
  }

  /** A file that a run applied shows as drifted once its content has another digest, and only then. */
  lemma {:induction false} ChangedFileDriftsIff(files: seq<File>, fails: set<string>, digest: Digest, db: Db, f: File,
      changed: string)
    requires HexDigest(digest) && InStep(db) && IsListing(files) && f in files && f.name !in ReadJournal(db.journal)
    requires Migrate(files, fails, digest, db).0
    ensures var applied := ReadJournal(Migrate(files, fails, digest, db).1.journal);
      HasDrifted(File(f.name, changed), applied, digest) <==> digest(changed) != digest(f.sql)
  {
    var applied := ReadJournal(db.journal);
    PendingIsListing(files, applied);
    PendingKeeps(files, applied, f);
    ApplyAllAdvances(Pending(files, applied), fails, digest, db);
    assert IsDigest(digest(f.sql));
  }

  /** A line that holds nothing but a name, as older journals have them, stands for a file of any content. */
  lemma {:induction false} BareNameIsApplied(text: string, name: string, f: File, digest: Digest)
    requires Terminated(text) && IsName(name) && name != "" && !IsWhitespace(name[|name| - 1]) && f.name == name
    ensures ReadJournal(text + name + "\n") == ReadJournal(text)[name := ""]
    ensures !HasDrifted(f, ReadJournal(text + name + "\n"), digest)
  {
    assert TrimStart(name) == name && TrimEnd(name) == name;
    ReadsAppended(text, name);
    IndexOfNone(name, '|');
  }

  // ---------------------------------------------------------------- what a lost line break costs

  ghost predicate CommitsName(files: seq<File>, n: string) {
    exists i :: 0 <= i < |files| && files[i].name == n && HasSql(files[i].sql)
  }

  lemma {:induction false} CommitsNameCons(files: seq<File>, n: string)
    requires files != []
    ensures CommitsName(files, n) <==> (files[0].name == n && HasSql(files[0].sql)) || CommitsName(files[1..], n)
  {
    if i :| 0 <= i < |files| && files[i].name == n && HasSql(files[i].sql) {
      assert i == 0 || files[1..][i - 1] == files[i];
    }
    if i :| 0 <= i < |files[1..]| && files[1..][i].name == n && HasSql(files[1..][i].sql) {
      assert files[i + 1] == files[1..][i];
    }
  }

  /** A run that does not fail commits exactly the files with SQL among those it applies. */
  lemma {:induction false} ApplyAllCommits(files: seq<File>, digest: Digest, db: Db, n: string)
    ensures var db' := ApplyAll(files, {}, digest, db).1;
      db.committed <= db'.committed && (n in db'.committed[|db.committed|..] <==> CommitsName(files, n))
    decreases |files|
  {
    if files != [] {
      var db1 := ApplyOne(files[0], digest, db);
      ApplyAllCommits(files[1..], digest, db1, n);
      CommitsNameCons(files, n);
      var db' := ApplyAll(files[1..], {}, digest, db1).1;
      assert db'.committed[|db.committed|..] == db1.committed[|db.committed|..] + db'.committed[|db1.committed|..];
    }
  }

  /** Applying files leaves a terminated journal and changes nothing in it at other names. */
  lemma {:induction false} ApplyAllElsewhere(files: seq<File>, fails: set<string>, digest: Digest, db: Db, n: string)
    requires HexDigest(digest) && Terminated(db.journal) && forall i | 0 <= i < |files| :: IsName(files[i].name)
    requires !IsFileName(files, n)
    ensures var db' := ApplyAll(files, fails, digest, db).1;
      && Terminated(db'.journal) && db.committed <= db'.committed
      && (n in ReadJournal(db'.journal) <==> n in ReadJournal(db.journal))
    decreases |files|
  {
    if files != [] && files[0].name !in fails {
      AppendReadsBack(db.journal, files[0].name, digest(files[0].sql));
      assert !IsFileName(files[1..], n) by {
        if i :| 0 <= i < |files[1..]| && files[1..][i].name == n {
          assert files[i + 1].name == n;
        }
      }
      ApplyAllElsewhere(files[1..], fails, digest, ApplyOne(files[0], digest, db), n);
    }
  }

  /**
   A run over a journal that ends in `last`, then a run that does not fail: the second run commits the script that the
   first run committed first once more if and only if `last` is not blank.
   */
  lemma {:induction false} SecondRunCommitsAgainIff(text: string, last: string, files: seq<File>, fails: set<string>,
      digest: Digest, db: Db)
    requires HexDigest(digest) && IsListing(files)
    requires db.journal == text + last && Terminated(text) && '\n' !in last
    requires var pending := Pending(files, ReadJournal(db.journal));
      pending != [] && pending[0].name !in fails && HasSql(pending[0].sql)
    ensures var n := Pending(files, ReadJournal(db.journal))[0].name;
      var db1 := Migrate(files, fails, digest, db).1;
      var db2 := Migrate(files, {}, digest, db1).1;
      && db.committed <= db1.committed <= db2.committed
      && n in db1.committed[|db.committed|..]
      && (n in db2.committed[|db1.committed|..] <==> Trim(last) != "")
  {
    var pending := Pending(files, ReadJournal(db.journal));
    var f, start := pending[0], ApplyOne(pending[0], digest, db);
    var db1 := Migrate(files, fails, digest, db).1;
    assert f in pending;
    PendingIsListing(files, ReadJournal(db.journal));
    AppendRecordsIff(text, last, f.name, digest(f.sql));
    assert !IsFileName(pending[1..], f.name) by {
      LaterNamesDiffer(pending);
    }
    ApplyAllElsewhere(pending[1..], fails, digest, start, f.name);
    assert start.committed == db.committed + [f.name];
    assert db1.committed[|db.committed|] == f.name;
    ApplyAllCommits(Pending(files, ReadJournal(db1.journal)), digest, db1, f.name);
    StillPendingIff(files, ReadJournal(db1.journal), f);
  }

  lemma {:induction false} LaterNamesDiffer(files: seq<File>)
    requires files != [] && IsListing(files)
    ensures !IsFileName(files[1..], files[0].name)
  {
    if i :| 0 <= i < |files[1..]| && files[1..][i].name == files[0].name {
      assert Before(files[0].name, files[i + 1].name);
      BeforeIsIrreflexive(files[0].name);
    }
  }

  lemma {:induction false} StillPendingIff(files: seq<File>, applied: Applied, f: File)
    requires f in files && HasSql(f.sql)
    ensures CommitsName(Pending(files, applied), f.name) <==> f.name !in applied
  {
    var pending := Pending(files, applied);
    if i :| 0 <= i < |pending| && pending[i].name == f.name && HasSql(pending[i].sql) {
      assert pending[i] in pending;
    }
    if f.name !in applied {
      PendingKeeps(files, applied, f);
      var i :| 0 <= i < |pending| && pending[i] == f;
    }
  }
}
