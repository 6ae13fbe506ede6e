/**
 * The documents and their annotation rows: a file's status moves between
 * 0 (not started), 1 (in progress) and 2 (complete) as it is annotated,
 * cleared and marked complete, and deleting a file deletes its annotations.
 */
module Documents {
  import opened Wrappers
  import opened PyStr
  import opened Labels
  import opened Heuristics
  import opened KeyOrder
  import opened Spans
  import opened Merge
  import opened MergeProperties
  import opened Knowledge

  const NOT_STARTED: int := 0
  const IN_PROGRESS: int := 1
  const COMPLETED: int := 2

  /** A document: its name, its text and its status. */
  datatype TextFile = TextFile(filename: string, content: string, status: int)

  /** A row of the annotation table: the file it belongs to and the annotation. */
  datatype AnnotationRow = AnnotationRow(fileId: nat, ann: Annotation)

  /** The error of the handlers that look a file up by id. */
  datatype DocError = FileNotFound

  // ---------------------------------------------------------------------
  // The annotation table
  // ---------------------------------------------------------------------

  /** The annotations of file `fileId`, in table order. */
  function RowsOf(rows: seq<AnnotationRow>, fileId: nat): seq<Annotation>
  {
    if rows == [] then []
    else RowsOf(rows[..|rows| - 1], fileId) + (if rows[|rows| - 1].fileId == fileId then [rows[|rows| - 1].ann] else [])
  }

  /** The bulk delete of one file's rows. */
  function WithoutFile(rows: seq<AnnotationRow>, fileId: nat): (r: seq<AnnotationRow>)
    ensures forall x :: x in r <==> x in rows && x.fileId != fileId
  {
    if rows == [] then []
    else WithoutFile(rows[..|rows| - 1], fileId) + (if rows[|rows| - 1].fileId == fileId then [] else [rows[|rows| - 1]])
  }

  /** New rows for file `fileId`, one per annotation, in order. */
  function RowsFor(fileId: nat, anns: seq<Annotation>): (r: seq<AnnotationRow>)
    ensures |r| == |anns|
  {
    if anns == [] then [] else RowsFor(fileId, anns[..|anns| - 1]) + [AnnotationRow(fileId, anns[|anns| - 1])]
  }

  /** A file's annotations in a concatenation of tables. */
  lemma {:induction false} RowsOfAppend(a: seq<AnnotationRow>, b: seq<AnnotationRow>, fileId: nat)
    ensures RowsOf(a + b, fileId) == RowsOf(a, fileId) + RowsOf(b, fileId)
    decreases |b|
  {
    if b == [] {
      assert a + b == a;
    } else {
      assert (a + b)[..|a + b| - 1] == a + b[..|b| - 1];
      RowsOfAppend(a, b[..|b| - 1], fileId);
    }
  }

  /** After the bulk delete the file has no annotations, and every other
      file keeps exactly the ones it had. */
  lemma {:induction false} RowsOfWithoutFile(rows: seq<AnnotationRow>, deleted: nat, fileId: nat)
    ensures RowsOf(WithoutFile(rows, deleted), fileId) == if deleted == fileId then [] else RowsOf(rows, fileId)
    decreases |rows|
  {
    if rows != [] {
      var init, last := rows[..|rows| - 1], rows[|rows| - 1];
      RowsOfWithoutFile(init, deleted, fileId);
      RowsOfAppend(WithoutFile(init, deleted), if last.fileId == deleted then [] else [last], fileId);
      assert [last][..0] == [];
    }
  }

  /** Rows made for one file belong to that file only. */
  lemma {:induction false} RowsOfRowsFor(anns: seq<Annotation>, owner: nat, fileId: nat)
    ensures RowsOf(RowsFor(owner, anns), fileId) == if owner == fileId then anns else []
    decreases |anns|
  {
    if anns != [] {
      var init, last := anns[..|anns| - 1], anns[|anns| - 1];
      var rows := RowsFor(owner, anns);
      assert rows[..|rows| - 1] == RowsFor(owner, init);
      RowsOfRowsFor(init, owner, fileId);
      assert init + [last] == anns;
    }
  }

  /** Replacing a file's rows (delete them all, then add new ones) leaves
      that file with exactly the new annotations, whatever it had before,
      and every other file untouched. */
  lemma AnnotationsReplaced(rows: seq<AnnotationRow>, owner: nat, anns: seq<Annotation>, fileId: nat)
    ensures RowsOf(WithoutFile(rows, owner) + RowsFor(owner, anns), fileId) ==
            if owner == fileId then anns else RowsOf(rows, fileId)
  {
    RowsOfAppend(WithoutFile(rows, owner), RowsFor(owner, anns), fileId);
    RowsOfWithoutFile(rows, owner, fileId);
    RowsOfRowsFor(anns, owner, fileId);
  }

  /** Run with the knowledge base's own snapshot, every knowledge-base span
      is one of the table's texts, labelled as the table labels that text. */
  lemma KbSpansUseKnowledgeBase(content: string, knowledge: KnowledgeBase)
    requires knowledge.Valid()
    requires NonEmptyKeys(knowledge.Snapshot())
    ensures forall i :: 0 <= i < |AfterKb(content, knowledge.Snapshot()).anns| ==>
              var a := AfterKb(content, knowledge.Snapshot()).anns[i];
              a.text in knowledge.entities && a.labelText == knowledge.entities[a.text].labelText
  {
    knowledge.SnapshotIsDict();
    KbSpansUseDictionary(content, knowledge.Snapshot());
  }

  // ---------------------------------------------------------------------
  // Task names typed in by hand
  // ---------------------------------------------------------------------

  /** The file name `manual_input` stores for a task name: the name
      stripped, with ".txt" appended unless it already ends so; none when
      the name is blank. */
  function TaskFileName(taskName: string): Option<string>
  {
    var name := Strip(taskName);
    if name == [] then None
    else if EndsWith(name, ".txt") then Some(name)
    else Some(name + ".txt")
  }

  /** A task name is refused exactly when it is blank. */
  lemma TaskFileNameRefusesBlank(taskName: string)
    ensures TaskFileName(taskName).None? <==> forall i :: 0 <= i < |taskName| ==> IsSpace(taskName[i])
  {
    StripIdempotent(taskName);
  }

  /** An accepted name ends in ".txt", starts with the stripped task name,
      and is its own normal form: typing it in again gives it back. */
  lemma TaskFileNameNormal(taskName: string)
    requires TaskFileName(taskName).Some?
    ensures EndsWith(TaskFileName(taskName).value, ".txt")
    ensures TaskFileName(taskName).value[..|Strip(taskName)|] == Strip(taskName)
    ensures TaskFileName(TaskFileName(taskName).value) == TaskFileName(taskName)
  {
    var name := Strip(taskName);
    var f := TaskFileName(taskName).value;
    var t := TrimStart(taskName);
    assert name[0] == t[0];
    if EndsWith(name, ".txt") {
      StripOfStripped(name);
    } else {
      assert f == name + ".txt";
      assert f[0] == name[0] && f[|f| - 1] == 't';
      StripOfStripped(f);
      assert f[|f| - 4..] == ".txt";
    }
  }

  // ---------------------------------------------------------------------
  // The statistics page's per-label counts
  // ---------------------------------------------------------------------

  /** The labels the statistics page always shows, in its order. */
  const REQUIRED_LABELS: seq<string> := [PERSON, PLACE, ORGANIZATION, TIME, SENTIMENT]

  /** The number of rows with label `labelText`: the count `complete_stats`
      shows beside a required label, 0 when no row has it. */
  function CountLabel(rows: seq<AnnotationRow>, labelText: string): nat
  {
    if rows == [] then 0
    else CountLabel(rows[..|rows| - 1], labelText) + (if rows[|rows| - 1].ann.labelText == labelText then 1 else 0)
  }

  /** The sum of the counts of a list of labels. */
  function SumCounts(rows: seq<AnnotationRow>, labels: seq<string>): nat
  {
    if labels == [] then 0 else CountLabel(rows, labels[0]) + SumCounts(rows, labels[1..])
  }

  /** An empty table counts nothing. */
  lemma {:induction false} NothingCounted(labels: seq<string>)
    ensures SumCounts([], labels) == 0
    decreases |labels|
  {
    if labels != [] {
      NothingCounted(labels[1..]);
    }
  }

  /** A row adds one to the count of its own label and to no other. */
  lemma {:induction false} SumCountsSnoc(rows: seq<AnnotationRow>, row: AnnotationRow, labels: seq<string>)
    requires forall i, j :: 0 <= i < j < |labels| ==> labels[i] != labels[j]
    ensures SumCounts(rows + [row], labels) == SumCounts(rows, labels) + (if row.ann.labelText in labels then 1 else 0)
    decreases |labels|
  {
    assert (rows + [row])[..|rows|] == rows;
    if labels != [] {
      var tail := labels[1..];
      assert forall i, j :: 0 <= i < j < |tail| ==> tail[i] != tail[j] by {
        forall i, j | 0 <= i < j < |tail| ensures tail[i] != tail[j] {
          assert tail[i] == labels[i + 1] && tail[j] == labels[j + 1];
        }
      }
      SumCountsSnoc(rows, row, tail);
      if row.ann.labelText == labels[0] {
        assert row.ann.labelText !in tail by {
          forall j | 0 <= j < |tail| ensures tail[j] != labels[0] { assert tail[j] == labels[j + 1]; }
        }
      }
      assert row.ann.labelText in labels <==> row.ann.labelText == labels[0] || row.ann.labelText in tail;
    }
  }

  /** The chart never shows more annotations than the table holds: the
      five counts add up to at most the number of rows, and to exactly that
      number when every row carries one of the five labels. */
  lemma {:induction false} StatsWithinTotal(rows: seq<AnnotationRow>)
    ensures SumCounts(rows, REQUIRED_LABELS) <= |rows|
    ensures (forall i :: 0 <= i < |rows| ==> rows[i].ann.labelText in REQUIRED_LABELS) ==>
              SumCounts(rows, REQUIRED_LABELS) == |rows|
    decreases |rows|
  {
    if rows == [] {
      NothingCounted(REQUIRED_LABELS);
    } else {
      var init, last := rows[..|rows| - 1], rows[|rows| - 1];
      StatsWithinTotal(init);
      assert rows == init + [last];
      SumCountsSnoc(init, last, REQUIRED_LABELS);
      if forall i :: 0 <= i < |rows| ==> rows[i].ann.labelText in REQUIRED_LABELS {
        assert forall i :: 0 <= i < |init| ==> init[i].ann.labelText in REQUIRED_LABELS by {
          forall i | 0 <= i < |init| ensures init[i].ann.labelText in REQUIRED_LABELS { assert init[i] == rows[i]; }
        }
        assert last == rows[|rows| - 1];
      }
    }
  }

  // ---------------------------------------------------------------------
  // The store
  // ---------------------------------------------------------------------

  /** The file table, the annotation table and the next file id. */
  class Store {
    var files: map<nat, TextFile>
    var annotations: seq<AnnotationRow>
    var nextId: nat

    /** Every file id was handed out, and every status is one of the three. */
    ghost predicate Valid()
      reads this
    {
      forall id :: id in files ==> id < nextId && files[id].status in {NOT_STARTED, IN_PROGRESS, COMPLETED}
    }

    constructor()
      ensures Valid()
      ensures files == map[] && annotations == [] && nextId == 0
    {
      files := map[];
      annotations := [];
      nextId := 0;
    }

    /** A new document, not started and with no annotations. */
    method CreateFile(filename: string, content: string) returns (id: nat)
      requires Valid()
      modifies this
      ensures Valid()
      ensures id !in old(files)
      ensures files == old(files)[id := TextFile(filename, content, NOT_STARTED)]
      ensures annotations == old(annotations)
    {
      id := nextId;
      files := files[id := TextFile(filename, content, NOT_STARTED)];
      nextId := nextId + 1;
    }

    /** An upload: refused without a file name, otherwise a new document
        with the decoded text. */
    method Upload(filename: string, content: string) returns (r: Option<nat>)
      requires Valid()
      modifies this
      ensures Valid()
      ensures filename == [] ==> r == None && files == old(files)
      ensures filename != [] ==> r.Some? && r.value !in old(files) &&
                                 files == old(files)[r.value := TextFile(filename, content, NOT_STARTED)]
      ensures annotations == old(annotations)
    {
      if filename == [] {
        return None;
      }
      var id := CreateFile(filename, content);
      r := Some(id);
    }

    /** `manual_input`: refused when the task name or the text is blank;
        otherwise a new document named by `TaskFileName` with the stripped text. */
    method ManualInput(taskName: string, textContent: string) returns (r: Option<nat>)
      requires Valid()
      modifies this
      ensures Valid()
      ensures TaskFileName(taskName).None? || Strip(textContent) == [] ==> r == None && files == old(files)
      ensures TaskFileName(taskName).Some? && Strip(textContent) != [] ==>
                r.Some? && r.value !in old(files) &&
                files == old(files)[r.value := TextFile(TaskFileName(taskName).value, Strip(textContent), NOT_STARTED)]
      ensures annotations == old(annotations)
    {
      var name := TaskFileName(taskName);
      var text := Strip(textContent);
      if name.None? || text == [] {
        return None;
      }
      var id := CreateFile(name.value, text);
      r := Some(id);
    }

    /** `auto_annotate`: the file's old annotations are deleted, the merge
        runs over its text with the knowledge base's current entries, its
        spans become the file's annotations and the file is in progress. */
    method AutoAnnotate(fileId: nat, kb: seq<Entry>, tokens: seq<Token>, score: Scorer, matches: seq<Match>)
      returns (r: Outcome<DocError>)
      requires Valid()
      requires NonEmptyKeys(kb) && DistinctKeys(kb)
      requires fileId in files ==> WellFormedMatches(files[fileId].content, matches)
      modifies this
      ensures Valid()
      ensures fileId !in old(files) ==> r == Fail(FileNotFound) && files == old(files) && annotations == old(annotations)
      ensures fileId in old(files) ==>
                && r == Pass
                && files == old(files)[fileId := old(files)[fileId].(status := IN_PROGRESS)]
                && annotations == WithoutFile(old(annotations), fileId) +
                                  RowsFor(fileId, AutoAnnotateSpec(old(files)[fileId].content, kb, tokens, score, matches).anns)
    {
      if fileId !in files {
        return Fail(FileNotFound);
      }
      var file := files[fileId];
      var anns := Merge.AutoAnnotate(file.content, kb, tokens, score, matches);
      files := files[fileId := file.(status := IN_PROGRESS)];
      annotations := WithoutFile(annotations, fileId) + RowsFor(fileId, anns);
      r := Pass;
    }

    /** `save_annotation`: the row is added, the file (when it exists) is in
        progress, and the span's text and label are offered to the knowledge
        base as a manual entry. */
    method SaveAnnotation(fileId: nat, ann: Annotation, knowledge: KnowledgeBase)
      requires Valid() && knowledge.Valid()
      modifies this, knowledge
      ensures Valid() && knowledge.Valid()
      ensures annotations == old(annotations) + [AnnotationRow(fileId, ann)]
      ensures files == if fileId in old(files) then old(files)[fileId := old(files)[fileId].(status := IN_PROGRESS)]
                       else old(files)
      ensures knowledge.entities == AddSpec(old(knowledge.entities), ann.text, ann.labelText, "manual").0
      ensures knowledge.order == if ann.text in old(knowledge.entities) then old(knowledge.order)
                                 else old(knowledge.order) + [ann.text]
    {
      annotations := annotations + [AnnotationRow(fileId, ann)];
      if fileId in files {
        files := files[fileId := files[fileId].(status := IN_PROGRESS)];
      }
      var _ := knowledge.Add(ann.text, ann.labelText, "manual");
    }

    /** `clear_annotations`: the file's rows go and the file (when it
        exists) is back to not started. */
    method ClearAnnotations(fileId: nat)
      requires Valid()
      modifies this
      ensures Valid()
      ensures annotations == WithoutFile(old(annotations), fileId)
      ensures files == if fileId in old(files) then old(files)[fileId := old(files)[fileId].(status := NOT_STARTED)]
                       else old(files)
    {
      annotations := WithoutFile(annotations, fileId);
      if fileId in files {
        files := files[fileId := files[fileId].(status := NOT_STARTED)];
      }
    }

    /** `mark_complete`: the file is complete, or "not found". */
    method MarkComplete(fileId: nat) returns (r: Outcome<DocError>)
      requires Valid()
      modifies this
      ensures Valid()
      ensures fileId !in old(files) ==> r == Fail(FileNotFound) && files == old(files)
      ensures fileId in old(files) ==> r == Pass && files == old(files)[fileId := old(files)[fileId].(status := COMPLETED)]
      ensures annotations == old(annotations)
    {
      if fileId !in files {
        return Fail(FileNotFound);
      }
      files := files[fileId := files[fileId].(status := COMPLETED)];
      r := Pass;
    }

    /** `delete_file`: the file and, by the cascade, all its rows go; or "not found". */
    method DeleteFile(fileId: nat) returns (r: Outcome<DocError>)
      requires Valid()
      modifies this
      ensures Valid()
      ensures fileId !in old(files) ==> r == Fail(FileNotFound) && files == old(files) && annotations == old(annotations)
      ensures fileId in old(files) ==>
                r == Pass && files == old(files) - {fileId} && annotations == WithoutFile(old(annotations), fileId)
    {
      if fileId !in files {
        return Fail(FileNotFound);
      }
      files := files - {fileId};
      annotations := WithoutFile(annotations, fileId);
      r := Pass;
    }
  }
}
