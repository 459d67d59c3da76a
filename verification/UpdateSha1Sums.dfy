/** Annotating a blob list with checksums and stripping them again.  A line is text up to a newline; the
    flag that says whether a section wants checksums is set by the comment that heads it. */
module UpdateSha1Sums {
  import opened Basics

  // ---------- String operations ----------

  /** rstrip('\\n') */
  function RStrip(line: string): string {
    if line != "" && line[|line| - 1] == '\n' then RStrip(line[..|line| - 1]) else line
  }

  /** split(c)[0] */
  function Cut(s: string, c: char): (r: string)
    ensures |r| <= |s| && (c in s ==> |r| < |s|)
  {
    if s == "" || s[0] == c then "" else [s[0]] + Cut(s[1..], c)
  }

  predicate FoundAt(s: string, sub: string, i: nat) { i + |sub| <= |s| && s[i..i + |sub|] == sub }

  predicate Contains(s: string, sub: string) { exists i: nat :: i <= |s| && FoundAt(s, sub, i) }

  lemma {:induction false} CutFacts(s: string, c: char)
    ensures Cut(s, c) <= s && c !in Cut(s, c)
    ensures c !in s ==> Cut(s, c) == s
    ensures c in s ==> |Cut(s, c)| < |s| && s[|Cut(s, c)|] == c
  {
    if s != "" && s[0] != c {
      CutFacts(s[1..], c);
      assert s == [s[0]] + s[1..];
    }
  }

  lemma {:induction false} CutConcat(a: string, b: string, c: char)
    requires c !in a
    ensures Cut(a + [c] + b, c) == a
  {
    if a == "" {
      assert a + [c] + b == [c] + b;
    } else {
      assert (a + [c] + b)[1..] == a[1..] + [c] + b;
      CutConcat(a[1..], b, c);
    }
  }

  lemma {:induction false} RStripFacts(line: string)
    ensures RStrip(line) <= line
    ensures RStrip(line) != "" ==> RStrip(line)[|RStrip(line)| - 1] != '\n'
    ensures forall k :: |RStrip(line)| <= k < |line| ==> line[k] == '\n'
  {
    if line != "" && line[|line| - 1] == '\n' { RStripFacts(line[..|line| - 1]); }
  }

  lemma RStripOnce(text: string)
    requires text == "" || text[|text| - 1] != '\n'
    ensures RStrip(text + "\n") == text && RStrip(text) == text
  {
    assert (text + "\n")[..|text|] == text;
  }

  // ---------- Lines ----------

  predicate IsBlank(line: string) { RStrip(line) == "" }

  predicate IsComment(line: string) { RStrip(line) != "" && RStrip(line)[0] == '#' }

  predicate IsEntry(line: string) { !IsBlank(line) && !IsComment(line) }

  /** The part of an entry in front of its annotation. */
  function Entry(line: string): string { Cut(RStrip(line), '|') }

  predicate IsAnnotated(line: string) { '|' in RStrip(line) }

  /** The file an entry names: its second colon-separated field if it has one, up to a semicolon,
      without one leading dash. */
  function FilePath(line: string): string {
    var entry := Entry(line);
    Undashed(Cut(Named(entry), ';'))
  }

  /** The second colon-separated field, or all if there is one. */
  function Named(entry: string): string {
    if ':' in entry then Cut(entry[|Cut(entry, ':')| + 1..], ':') else entry
  }

  /** Without one leading dash. */
  function Undashed(path: string): string { if path != "" && path[0] == '-' then path[1..] else path }

  /** Reads the file and hashes it; None if it does not exist or cannot be read. */
  type Oracle = string -> Option<string>

  ghost predicate PlainHashes(hash: Oracle) {
    forall path :: hash(path).Some? ==> '|' !in hash(path).value && '\n' !in hash(path).value
  }

  function CleanLine(line: string): string {
    if IsEntry(line) && IsAnnotated(line) then Entry(line) + "\n" else line
  }

  predicate Hashed(need: bool, line: string, hash: Oracle) {
    need && IsEntry(line) && hash(FilePath(line)).Some?
  }

  function UpdateLine(need: bool, line: string, hash: Oracle): string {
    if Hashed(need, line, hash) then Entry(line) + "|" + hash(FilePath(line)).value + "\n" else line
  }

  function NextNeed(need: bool, line: string): bool {
    if IsComment(line) then Contains(RStrip(line), " - from") else need
  }

  // ---------- Lists ----------

  /** The flag when line i is reached. */
  function NeedAt(lines: seq<string>, need: bool, i: nat): bool
    requires i <= |lines|
  {
    if i == 0 then need else NextNeed(NeedAt(lines, need, i - 1), lines[i - 1])
  }

  function Cleaned(lines: seq<string>): seq<string> {
    seq(|lines|, i requires 0 <= i < |lines| => CleanLine(lines[i]))
  }

  function Updated(lines: seq<string>, need: bool, hash: Oracle): seq<string> {
    seq(|lines|, i requires 0 <= i < |lines| => UpdateLine(NeedAt(lines, need, i), lines[i], hash))
  }

  // ---------- What annotating does to one line ----------

  lemma AnnotatedText(line: string, h: string)
    requires IsEntry(line) && '|' !in h && '\n' !in h
    ensures var out := Entry(line) + "|" + h + "\n";
            RStrip(out) == Entry(line) + "|" + h && Entry(out) == Entry(line)
            && IsEntry(out) && IsAnnotated(out)
  {
    var entry := Entry(line);
    CutFacts(RStrip(line), '|');
    var text := entry + "|" + h;
    assert text[|text| - 1] == if h == "" then '|' else h[|h| - 1];
    RStripOnce(text);
    CutConcat(entry, h, '|');
    assert entry + ['|'] + h == text && text[|entry|] == '|';
    assert text[0] == if entry == "" then '|' else RStrip(line)[0];
  }

  lemma UpdateKeepsShape(need: bool, line: string, hash: Oracle)
    requires PlainHashes(hash)
    ensures var out := UpdateLine(need, line, hash);
            && IsBlank(out) == IsBlank(line) && IsComment(out) == IsComment(line)
            && Entry(out) == Entry(line) && FilePath(out) == FilePath(line)
            && NextNeed(need, out) == NextNeed(need, line)
            && (!IsEntry(line) ==> out == line)
  {
    if Hashed(need, line, hash) { AnnotatedText(line, hash(FilePath(line)).value); }
  }

  lemma UpdateKeepsComment(need: bool, line: string, hash: Oracle)
    requires PlainHashes(hash)
    ensures IsComment(UpdateLine(need, line, hash)) == IsComment(line)
    ensures IsComment(line) ==> UpdateLine(need, line, hash) == line
  {
    UpdateKeepsShape(need, line, hash);
  }

  lemma UpdateLineTwice(need: bool, line: string, hash: Oracle)
    requires PlainHashes(hash)
    ensures UpdateLine(need, UpdateLine(need, line, hash), hash) == UpdateLine(need, line, hash)
  {
    UpdateKeepsShape(need, line, hash);
  }

  lemma CleanLineTwice(line: string)
    ensures CleanLine(CleanLine(line)) == CleanLine(line)
  {
    if IsEntry(line) && IsAnnotated(line) {
      CutFacts(RStrip(line), '|');
      RStripFacts(Entry(line) + "\n");
      assert '|' !in Entry(line) + "\n";
    }
  }

  lemma {:induction false} CutAppend(a: string, b: string, c: char)
    requires c !in a
    ensures Cut(a + b, c) == a + Cut(b, c)
  {
    if a == "" {
      assert a + b == b;
    } else {
      assert (a + b)[1..] == a[1..] + b;
      CutAppend(a[1..], b, c);
    }
  }

  /** An entry `source:file;arguments` names the file, whatever the arguments and the old checksum, and
      with or without a dash before it. */
  lemma SecondFieldIsPath(source: string, dash: string, file: string, arguments: string, h: string)
    requires dash == "" || dash == "-"
    requires dash == "" && file != "" ==> file[0] != '-'
    requires '|' !in source + file + arguments && ':' !in source + file && ';' !in file && '\n' !in h
    ensures FilePath(source + ":" + dash + file + ";" + arguments + "|" + h + "\n") == file
  {
    hide Cut, RStrip, Entry;
    var path, line := dash + file, source + ":" + dash + file + ";" + arguments + "|" + h + "\n";
    var tail := path + ";" + arguments;
    assert line == (source + ":" + tail) + "|" + h + "\n";
    AnnotationIsCut(source + ":" + tail, h, line);
    SecondField(source, tail);
    FieldCut(path, arguments);
  }

  lemma SecondField(source: string, tail: string)
    requires ':' !in source
    ensures Named(source + ":" + tail) == Cut(tail, ':')
  {
    hide Cut;
    var entry := source + ":" + tail;
    CutConcat(source, tail, ':');
    assert entry == source + [':'] + tail && entry[|source|] == ':';
    assert entry[|source| + 1..] == tail;
  }

  lemma FieldCut(path: string, arguments: string)
    requires ':' !in path && ';' !in path
    ensures Cut(Cut(path + ";" + arguments, ':'), ';') == path
  {
    hide Cut;
    assert path + ";" + arguments == path + (";" + arguments);
    CutAppend(path, ";" + arguments, ':');
    CutSemicolon(arguments);
    CutConcat(path, Cut(arguments, ':'), ';');
    assert path + ([';'] + Cut(arguments, ':')) == path + [';'] + Cut(arguments, ':');
  }

  lemma CutSemicolon(arguments: string)
    ensures Cut(";" + arguments, ':') == [';'] + Cut(arguments, ':')
  {
    assert (";" + arguments)[1..] == arguments;
  }

  /** An entry without a colon names the file itself. */
  lemma OnlyFieldIsPath(dash: string, file: string, arguments: string, h: string)
    requires dash == "" || dash == "-"
    requires dash == "" && file != "" ==> file[0] != '-'
    requires '|' !in file + arguments && ':' !in file + arguments && ';' !in file && '\n' !in h
    ensures FilePath(dash + file + ";" + arguments + "|" + h + "\n") == file
  {
    var path := dash + file;
    var entry := path + ";" + arguments;
    AnnotationIsCut(entry, h, dash + file + ";" + arguments + "|" + h + "\n");
    CutConcat(path, arguments, ';');
    assert entry == path + [';'] + arguments;
  }

  /** Without a semicolon all of the field is the file, annotated or not, with or without a source. */
  lemma WholeFieldIsPath(source: string, dash: string, file: string, h: string)
    requires dash == "" || dash == "-"
    requires file != "" && file[|file| - 1] != '\n' && (dash == "" ==> file[0] != '-')
    requires '|' !in source + file && ':' !in source + file && ';' !in file && '\n' !in h
    ensures FilePath(dash + file + "|" + h + "\n") == file == FilePath(dash + file + "\n")
    ensures FilePath(source + ":" + dash + file + "|" + h + "\n") == file
    ensures FilePath(source + ":" + dash + file + "\n") == file
  {
    hide Cut, RStrip, Entry;
    var path := dash + file;
    var entry := source + ":" + path;
    assert path[|path| - 1] == file[|file| - 1] && entry[|entry| - 1] == file[|file| - 1];
    assert source + ":" + dash + file == entry;
    AnnotationIsCut(path, h, path + "|" + h + "\n");
    AnnotationIsCut(entry, h, entry + "|" + h + "\n");
    PlainEntry(path);
    PlainEntry(entry);
    SecondField(source, path);
    CutFacts(path, ':');
    CutFacts(path, ';');
    assert entry[|source|] == ':';
  }

  lemma PlainEntry(entry: string)
    requires entry != "" && entry[|entry| - 1] != '\n' && '|' !in entry
    ensures Entry(entry + "\n") == entry
  {
    hide Cut;
    RStripOnce(entry);
    CutFacts(entry, '|');
  }

  lemma AnnotationIsCut(entry: string, h: string, line: string)
    requires '|' !in entry && '\n' !in h && line == entry + "|" + h + "\n"
    ensures Entry(line) == entry
  {
    var text := entry + "|" + h;
    assert text[|text| - 1] == if h == "" then '|' else h[|h| - 1];
    RStripOnce(text);
    CutConcat(entry, h, '|');
    assert entry + ['|'] + h == text;
  }

  /** Text and exactly one newline. */
  predicate Terminated(line: string) { line == RStrip(line) + "\n" }

  lemma CleanAfterUpdate(need: bool, line: string, hash: Oracle)
    requires PlainHashes(hash)
    ensures CleanLine(UpdateLine(need, line, hash)) == CleanLine(line)
            <==> !Hashed(need, line, hash) || IsAnnotated(line) || Terminated(line)
  {
    if Hashed(need, line, hash) {
      AnnotatedText(line, hash(FilePath(line)).value);
      CutFacts(RStrip(line), '|');
    }
  }

  // ---------- The section flag ----------

  lemma NeedStarts(lines: seq<string>, need: bool)
    ensures NeedAt(lines, need, 0) == need
  {
  }

  lemma NeedNext(lines: seq<string>, need: bool, i: nat)
    requires i < |lines|
    ensures NeedAt(lines, need, i + 1) == NextNeed(NeedAt(lines, need, i), lines[i])
  {
  }

  predicate MarkerAt(text: string, k: nat) { k + 7 <= |text| && text[k..k + 7] == " - from" }

  /** A heading names the source of its section. */
  ghost predicate NamesSource(line: string) { exists k: nat :: MarkerAt(RStrip(line), k) }

  /** A comment is a line whose text begins with a hash sign, and it sets the flag exactly if it names a source;
      no other line touches the flag. */
  lemma CommentSetsFlag(need: bool, line: string)
    ensures IsComment(line) <==> RStrip(line) != "" && RStrip(line)[0] == '#'
    ensures NextNeed(need, line) == if IsComment(line) then NamesSource(line) else need
  {
    var text := RStrip(line);
    if NamesSource(line) {
      var k: nat :| MarkerAt(text, k);
      assert FoundAt(text, " - from", k);
    }
    if Contains(text, " - from") {
      var k: nat :| k <= |text| && FoundAt(text, " - from", k);
      assert MarkerAt(text, k);
    }
  }

  /** Headings of the form used in the list. */
  lemma HeadingsOfTheList(need: bool, title: string, origin: string)
    requires '\n' !in title + origin
    ensures NextNeed(need, "# " + title + " - from" + origin + "\n")
    ensures '-' !in title ==> !NextNeed(need, "# " + title + "\n")
  {
    var marked, plain := "# " + title + " - from" + origin, "# " + title;
    assert marked[|marked| - 1] != '\n' && plain[|plain| - 1] != '\n';
    hide RStrip, NextNeed, Contains, IsComment;
    RStripOnce(marked);
    RStripOnce(plain);
    CommentSetsFlag(need, marked + "\n");
    CommentSetsFlag(need, plain + "\n");
    var k := |"# " + title|;
    assert MarkerAt(marked, k);
    assert marked[0] == '#' && plain[0] == '#';
    if NamesSource(plain + "\n") { MarkerHasDash(plain + "\n"); }
  }

  lemma MarkerHasDash(line: string)
    requires NamesSource(line)
    ensures '-' in RStrip(line)
  {
    var text := RStrip(line);
    var k: nat :| MarkerAt(text, k);
    assert text[k + 1] == text[k..k + 7][1] == '-';
  }

  /** Under the last comment before it, c, or from the start if there is none. */
  lemma {:induction false} FlagIsLastComment(lines: seq<string>, need: bool, c: int, i: nat)
    requires -1 <= c < i <= |lines|
    requires c >= 0 ==> IsComment(lines[c])
    requires forall k :: c < k < i ==> !IsComment(lines[k])
    ensures NeedAt(lines, need, i) == if c >= 0 then NamesSource(lines[c]) else need
  {
    hide NextNeed, IsComment, NamesSource;
    NeedStarts(lines, need);
    if i > 0 {
      NeedNext(lines, need, i - 1);
      CommentSetsFlag(NeedAt(lines, need, i - 1), lines[i - 1]);
      if c < i - 1 { FlagIsLastComment(lines, need, c, i - 1); }
    }
  }

  /** Main result: what annotating does to line i, which stands under comment c.  An entry of a section whose
      heading names a source gets the checksum of its file, if there is one, behind a bar; every other line
      stays as it is. */
  lemma SectionDecidesAnnotation(lines: seq<string>, need: bool, hash: Oracle, c: nat, i: nat)
    requires c < i < |lines| && IsComment(lines[c])
    requires forall k :: c < k < i ==> !IsComment(lines[k])
    ensures var h := hash(FilePath(lines[i]));
            Updated(lines, need, hash)[i] ==
            if IsEntry(lines[i]) && NamesSource(lines[c]) && h.Some? then Entry(lines[i]) + "|" + h.value + "\n"
            else lines[i]
  {
    hide IsComment, NamesSource, IsEntry, Entry, FilePath;
    FlagIsLastComment(lines, need, c, i);
  }

  // ---------- The laws ----------

  lemma LineByLine(lines: seq<string>, need: bool, hash: Oracle, i: nat)
    requires i <= |lines|
    ensures |Updated(lines, need, hash)| == |lines|
    ensures i < |lines| ==> Updated(lines, need, hash)[i] == UpdateLine(NeedAt(lines, need, i), lines[i], hash)
  {
  }

  /** The flag depends on the comments alone. */
  lemma {:induction false} NeedFollowsComments(lines: seq<string>, out: seq<string>, need: bool, i: nat)
    requires i <= |lines| == |out|
    requires forall k :: 0 <= k < i ==> IsComment(out[k]) == IsComment(lines[k])
    requires forall k :: 0 <= k < i && IsComment(lines[k]) ==> out[k] == lines[k]
    ensures NeedAt(out, need, i) == NeedAt(lines, need, i)
  {
    hide IsComment;
    if i > 0 { NeedFollowsComments(lines, out, need, i - 1); }
  }

  lemma UpdateKeepsNeed(lines: seq<string>, need: bool, hash: Oracle, i: nat)
    requires PlainHashes(hash) && i <= |lines|
    ensures NeedAt(Updated(lines, need, hash), need, i) == NeedAt(lines, need, i)
  {
    hide *;
    var out := Updated(lines, need, hash);
    LineByLine(lines, need, hash, i);
    forall k | 0 <= k < i
      ensures IsComment(out[k]) == IsComment(lines[k]) && (IsComment(lines[k]) ==> out[k] == lines[k])
    {
      LineByLine(lines, need, hash, k);
      UpdateKeepsComment(NeedAt(lines, need, k), lines[k], hash);
    }
    NeedFollowsComments(lines, out, need, i);
  }

  /** Updating keeps the number of lines, every comment and blank line, and the file each entry names. */
  lemma UpdateChangesOnlyAnnotations(lines: seq<string>, need: bool, hash: Oracle, i: nat)
    requires PlainHashes(hash) && i < |lines|
    ensures |Updated(lines, need, hash)| == |lines|
    ensures !IsEntry(lines[i]) ==> Updated(lines, need, hash)[i] == lines[i]
    ensures Entry(Updated(lines, need, hash)[i]) == Entry(lines[i])
    ensures FilePath(Updated(lines, need, hash)[i]) == FilePath(lines[i])
  {
    UpdateKeepsShape(NeedAt(lines, need, i), lines[i], hash);
  }

  /** Stripping keeps the number of lines and every line that has no annotation to lose, comments and blank
      lines whatever they hold; of an annotated entry it leaves the part before the bar. */
  lemma CleanChangesOnlyAnnotations(lines: seq<string>, i: nat)
    requires i < |lines|
    ensures |Cleaned(lines)| == |lines|
    ensures IsComment(lines[i]) || IsBlank(lines[i]) || '|' !in RStrip(lines[i]) ==> Cleaned(lines)[i] == lines[i]
    ensures IsEntry(lines[i]) && '|' in RStrip(lines[i]) ==>
              exists rest :: RStrip(lines[i]) == Entry(lines[i]) + "|" + rest
                             && '|' !in Entry(lines[i]) && Cleaned(lines)[i] == Entry(lines[i]) + "\n"
  {
    var text, entry := RStrip(lines[i]), Entry(lines[i]);
    CutFacts(text, '|');
    if '|' in text {
      assert text == entry + "|" + text[|entry| + 1..];
    }
  }

  lemma UpdatingTwiceIsUpdatingOnce(lines: seq<string>, need: bool, hash: Oracle)
    requires PlainHashes(hash)
    ensures Updated(Updated(lines, need, hash), need, hash) == Updated(lines, need, hash)
  {
    forall i | 0 <= i < |lines|
      ensures Updated(Updated(lines, need, hash), need, hash)[i] == Updated(lines, need, hash)[i]
    {
      UpdateKeepsNeed(lines, need, hash, i);
      UpdateLineTwice(NeedAt(lines, need, i), lines[i], hash);
    }
  }

  lemma CleaningTwiceIsCleaningOnce(lines: seq<string>)
    ensures Cleaned(Cleaned(lines)) == Cleaned(lines)
  {
    forall i | 0 <= i < |lines|
      ensures CleanLine(CleanLine(lines[i])) == CleanLine(lines[i])
    {
      CleanLineTwice(lines[i]);
    }
  }

  /** Line i gets a checksum although it had no annotation and does not end in one newline. */
  predicate GainsNewline(lines: seq<string>, need: bool, hash: Oracle, i: nat)
    requires i < |lines|
  {
    Hashed(NeedAt(lines, need, i), lines[i], hash) && !IsAnnotated(lines[i]) && !Terminated(lines[i])
  }

  /** Main result: stripping undoes annotating, exactly when no unterminated line gains an annotation. */
  lemma CleaningUndoesUpdating(lines: seq<string>, need: bool, hash: Oracle)
    requires PlainHashes(hash)
    ensures Cleaned(Updated(lines, need, hash)) == Cleaned(lines)
            <==> forall i :: 0 <= i < |lines| ==> !GainsNewline(lines, need, hash, i)
  {
    var out := Updated(lines, need, hash);
    forall i | 0 <= i < |lines|
      ensures CleanLine(out[i]) == CleanLine(lines[i]) <==> !GainsNewline(lines, need, hash, i)
    {
      CleanAfterUpdate(NeedAt(lines, need, i), lines[i], hash);
    }
    assert forall i :: 0 <= i < |lines| ==>
             Cleaned(out)[i] == CleanLine(out[i]) && Cleaned(lines)[i] == CleanLine(lines[i]);
  }

  /** A last line without a newline gains one that stripping does not take away. */
  lemma UnterminatedLineGainsNewline(hash: Oracle)
    requires PlainHashes(hash) && hash("a") == Some("h")
    ensures Updated(["a"], true, hash) == ["a|h\n"]
    ensures Cleaned(["a|h\n"]) == ["a\n"] && Cleaned(["a"]) == ["a"]
  {
    hide *;
    OneLetter();
    assert "a" + "|" + "h" + "\n" == "a|h\n" && "a" + "\n" == "a\n";
    AnnotatedText("a", "h");
    OneLine("a", "a|h\n", hash);
    CleanAnnotated("a|h\n");
  }

  lemma OneLetter()
    ensures IsEntry("a") && !IsAnnotated("a") && Entry("a") == "a" && FilePath("a") == "a"
  {
    assert RStrip("a") == "a";
    CutFacts("a", '|');
    CutFacts("a", ';');
  }

  lemma CleanAnnotated(line: string)
    requires IsEntry(line) && IsAnnotated(line)
    ensures Cleaned([line]) == [Entry(line) + "\n"]
  {
  }

  lemma OneLine(line: string, out: string, hash: Oracle)
    requires IsEntry(line) && hash(FilePath(line)).Some?
    requires out == Entry(line) + "|" + hash(FilePath(line)).value + "\n"
    ensures Updated([line], true, hash) == [out]
    ensures Cleaned([line]) == [if IsAnnotated(line) then Entry(line) + "\n" else line]
  {
    hide IsEntry, IsAnnotated, Entry, FilePath;
    NeedStarts([line], true);
  }

  /** In particular for a list whose every line ends in one newline. */
  lemma CleaningUndoesUpdatingTerminated(lines: seq<string>, need: bool, hash: Oracle)
    requires PlainHashes(hash) && forall i :: 0 <= i < |lines| ==> Terminated(lines[i])
    ensures Cleaned(Updated(lines, need, hash)) == Cleaned(lines)
  {
    CleaningUndoesUpdating(lines, need, hash);
  }

  // ---------- The script ----------

  class BlobList {
    var lines: seq<string>
    var needSHA1: bool

    constructor (lines: seq<string>)
      ensures this.lines == lines && !needSHA1
    {
      this.lines, needSHA1 := lines, false;
    }

    method Cleanup()
      modifies this`lines
      ensures lines == Cleaned(old(lines))
    {
      var index := 0;
      while index < |lines|
        invariant index <= |lines| == |old(lines)|
        invariant forall i :: 0 <= i < |lines| ==>
                    lines[i] == if i < index then CleanLine(old(lines)[i]) else old(lines)[i]
      {
        var line := RStrip(lines[index]);
        if line != "" && line[0] != '#' {
          if '|' in line {
            line := Cut(line, '|');
            lines := lines[index := line + "\n"];
          }
        }
        index := index + 1;
      }
    }

    method UpdateAt(index: nat, hash: Oracle)
      requires index < |lines|
      modifies this
      ensures lines == old(lines)[index := UpdateLine(old(needSHA1), old(lines)[index], hash)]
      ensures needSHA1 == NextNeed(old(needSHA1), old(lines)[index])
    {
      var line := RStrip(lines[index]);
      if line == "" {
        return;
      }
      if line[0] == '#' {
        needSHA1 := Contains(line, " - from");
        return;
      }
      if needSHA1 {
        var found := hash(FilePath(lines[index]));
        if found.None? {
          return;
        }
        line := Cut(line, '|');
        lines := lines[index := line + "|" + found.value + "\n"];
      }
    }

    /** The flag is left as the last comment set it. */
    method Update(hash: Oracle)
      modifies this
      ensures lines == Updated(old(lines), old(needSHA1), hash)
      ensures needSHA1 == NeedAt(old(lines), old(needSHA1), |old(lines)|)
    {
      hide NeedAt, Updated, UpdateLine, NextNeed;
      ghost var was, need, target := lines, needSHA1, Updated(lines, needSHA1, hash);
      LineByLine(was, need, hash, 0);
      NeedStarts(was, need);
      var index := 0;
      while index < |lines|
        invariant index <= |lines| == |was|
        invariant needSHA1 == NeedAt(was, need, index)
        invariant forall i :: 0 <= i < |lines| ==> lines[i] == if i < index then target[i] else was[i]
      {
        LineByLine(was, need, hash, index);
        NeedNext(was, need, index);
        UpdateAt(index, hash);
        index := index + 1;
      }
    }
  }
}
