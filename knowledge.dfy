/**
 * The knowledge base: entity texts with their labels and where they came
 * from.  The text is the unique key of the table; an insert for a text that
 * is already there changes nothing, so the first writer wins.  The table's
 * row order is kept beside the map, because it is the order the merge sees
 * the entries in (and so the tie order of its longest-first sort).
 */
module Knowledge {
  import opened Wrappers
  import opened PyStr
  import opened KeyOrder
  import opened Merge
  import opened MergeProperties

  /** A knowledge-base row without its key: the label and the source
      ("manual", "auto" or "import"). */
  datatype Entity = Entity(labelText: string, source: string)

  /** The errors the knowledge-base handlers report. */
  datatype KbError =
    | MissingParameter   // add: blank text or label
    | AlreadyExists      // add: the text is already a key
    | MissingText        // delete: no text given
    | NotFound           // delete: the text is not a key

  /** One element of an import's `entities` list: a JSON object, whose
      absent `text` or `label` reads as "", or anything else. */
  datatype ImportItem = Object(text: string, labelText: string) | Other

  // ---------------------------------------------------------------------
  // The insert, as a function of the table
  // ---------------------------------------------------------------------

  /** The idempotent insert: the new table and whether a row was added. */
  function AddSpec(entities: map<string, Entity>, text: string, labelText: string, source: string): (map<string, Entity>, bool)
  {
    if text in entities then (entities, false) else (entities[text := Entity(labelText, source)], true)
  }

  /** The insert adds a row exactly when the text is not yet a key, never
      touches another key, and never changes an existing row. */
  lemma AddSpecFacts(entities: map<string, Entity>, text: string, labelText: string, source: string)
    ensures AddSpec(entities, text, labelText, source).1 <==> text !in entities
    ensures AddSpec(entities, text, labelText, source).0.Keys == entities.Keys + {text}
    ensures forall k :: k in entities ==> AddSpec(entities, text, labelText, source).0[k] == entities[k]
    ensures text !in entities ==> AddSpec(entities, text, labelText, source).0[text] == Entity(labelText, source)
  {
  }

  /** A second insert of the same text reports false and changes nothing,
      whatever its label: the first writer wins. */
  lemma AddSpecIdempotent(entities: map<string, Entity>, text: string, labelText: string, source: string,
                          labelText': string, source': string)
    ensures var once := AddSpec(entities, text, labelText, source).0;
            AddSpec(once, text, labelText', source') == (once, false)
  {
  }

  // ---------------------------------------------------------------------
  // Import, as a function of the table
  // ---------------------------------------------------------------------

  /** Whether an import item is offered to the insert: an object with
      non-empty text and label. */
  predicate Importable(item: ImportItem)
  {
    item.Object? && item.text != [] && item.labelText != []
  }

  /** The import loop over `items`: the new table and `imported_count`. */
  function ImportAll(entities: map<string, Entity>, items: seq<ImportItem>): (map<string, Entity>, nat)
    decreases |items|
  {
    if items == [] then (entities, 0)
    else
      var (before, count) := ImportAll(entities, items[..|items| - 1]);
      var item := items[|items| - 1];
      if Importable(item) then
        var (after, inserted) := AddSpec(before, item.text, item.labelText, "import");
        (after, if inserted then count + 1 else count)
      else (before, count)
  }

  /** The row order after the import loop: `order` followed by the texts
      the loop inserted, in item order. */
  function ImportOrder(entities: map<string, Entity>, order: seq<string>, items: seq<ImportItem>): (r: seq<string>)
    ensures |order| <= |r| && r[..|order|] == order
    decreases |items|
  {
    if items == [] then order
    else
      var init := items[..|items| - 1];
      var before := ImportOrder(entities, order, init);
      var item := items[|items| - 1];
      if Importable(item) && item.text !in ImportAll(entities, init).0 then before + [item.text] else before
  }

  /** The count is the number of rows the import actually added; the rows
      already present are left as they were. */
  lemma {:induction false} ImportCountsInsertions(entities: map<string, Entity>, items: seq<ImportItem>)
    ensures entities.Keys <= ImportAll(entities, items).0.Keys
    ensures ImportAll(entities, items).1 == |ImportAll(entities, items).0.Keys| - |entities.Keys|
    ensures forall k :: k in entities ==> ImportAll(entities, items).0[k] == entities[k]
    decreases |items|
  {
    if items != [] {
      var init := items[..|items| - 1];
      ImportCountsInsertions(entities, init);
      var before := ImportAll(entities, init).0;
      var item := items[|items| - 1];
      if Importable(item) {
        AddSpecFacts(before, item.text, item.labelText, "import");
        if item.text !in before {
          assert (before[item.text := Entity(item.labelText, "import")]).Keys == before.Keys + {item.text};
        }
      }
    }
  }

  /** Item `i` is the first importable item with text `k`. */
  ghost predicate FirstImportable(items: seq<ImportItem>, i: int, k: string)
  {
    && 0 <= i < |items| && Importable(items[i]) && items[i].text == k
    && forall i' :: 0 <= i' < i ==> !(Importable(items[i']) && items[i'].text == k)
  }

  /** Every new row comes from the first importable item with its text:
      it has that item's label and the source "import" (a later item with
      the same text loses, as the insert keeps the first row). */
  lemma {:induction false} ImportRowsComeFromItems(entities: map<string, Entity>, items: seq<ImportItem>)
    ensures forall k :: k in ImportAll(entities, items).0 && k !in entities ==>
              exists i :: FirstImportable(items, i, k) &&
                          ImportAll(entities, items).0[k] == Entity(items[i].labelText, "import")
    decreases |items|
  {
    if items != [] {
      var init := items[..|items| - 1];
      var before := ImportAll(entities, init).0;
      var last := items[|items| - 1];
      ImportRowsComeFromItems(entities, init);
      ImportedTextsArePresent(entities, init);
      if Importable(last) {
        AddSpecFacts(before, last.text, last.labelText, "import");
      }
      forall k | k in ImportAll(entities, items).0 && k !in entities
        ensures exists i :: FirstImportable(items, i, k) &&
                            ImportAll(entities, items).0[k] == Entity(items[i].labelText, "import")
      {
        if k in before {
          var i :| FirstImportable(init, i, k) && before[k] == Entity(init[i].labelText, "import");
          assert FirstImportable(items, i, k) by {
            forall i' | 0 <= i' <= i ensures items[i'] == init[i'] { }
          }
        } else {
          assert Importable(last) && last.text == k;
          assert FirstImportable(items, |items| - 1, k) by {
            forall i' | 0 <= i' < |items| - 1 ensures !(Importable(items[i']) && items[i'].text == k) {
              assert items[i'] == init[i'];
            }
          }
        }
      }
    }
  }

  /** After the import, the text of every importable item is a key. */
  lemma {:induction false} ImportedTextsArePresent(entities: map<string, Entity>, items: seq<ImportItem>)
    ensures forall i :: 0 <= i < |items| && Importable(items[i]) ==> items[i].text in ImportAll(entities, items).0
    decreases |items|
  {
    if items != [] {
      var init := items[..|items| - 1];
      ImportedTextsArePresent(entities, init);
      ImportCountsInsertions(entities, init);
      forall i | 0 <= i < |items| && Importable(items[i]) ensures items[i].text in ImportAll(entities, items).0 {
        if i < |init| {
          assert items[i] == init[i];
        }
      }
    }
  }

  // ---------------------------------------------------------------------
  // The table as the merge sees it
  // ---------------------------------------------------------------------

  /** The (text, label) entries of the keys in `order`. */
  function EntriesOf(order: seq<string>, entities: map<string, Entity>): (r: seq<Entry>)
    requires forall i :: 0 <= i < |order| ==> order[i] in entities
    ensures |r| == |order|
    ensures forall i :: 0 <= i < |r| ==> r[i].0 == order[i] && r[i].1 == entities[order[i]].labelText
  {
    if order == [] then [] else EntriesOf(order[..|order| - 1], entities) + [(order[|order| - 1], entities[order[|order| - 1]].labelText)]
  }

  /** The first occurrence of `x` removed, when there is one. */
  function Remove(order: seq<string>, x: string): (r: seq<string>)
    ensures forall y :: y in r ==> y in order
    ensures forall y :: y in order && y != x ==> y in r
  {
    if order == [] then []
    else if order[0] == x then order[1..]
    else [order[0]] + Remove(order[1..], x)
  }

  /** Removing from a list without repeats: `x` is gone and no repeats appear. */
  lemma {:induction false} RemoveDistinct(order: seq<string>, x: string)
    requires forall i, j :: 0 <= i < j < |order| ==> order[i] != order[j]
    ensures x !in Remove(order, x)
    ensures forall i, j :: 0 <= i < j < |Remove(order, x)| ==> Remove(order, x)[i] != Remove(order, x)[j]
  {
    if order != [] {
      var tail := order[1..];
      assert forall i, j :: 0 <= i < j < |tail| ==> tail[i] != tail[j] by {
        forall i, j | 0 <= i < j < |tail| ensures tail[i] != tail[j] {
          assert tail[i] == order[i + 1] && tail[j] == order[j + 1];
        }
      }
      if order[0] == x {
        assert x !in tail by {
          forall j | 0 <= j < |tail| ensures tail[j] != x { assert tail[j] == order[j + 1]; }
        }
      } else {
        RemoveDistinct(tail, x);
        var r := [order[0]] + Remove(tail, x);
        assert order[0] !in Remove(tail, x) by {
          forall j | 0 <= j < |tail| ensures tail[j] != order[0] { assert tail[j] == order[j + 1]; }
        }
        forall i, j | 0 <= i < j < |r| ensures r[i] != r[j] {
          assert r[j] == Remove(tail, x)[j - 1];
          if i > 0 { assert r[i] == Remove(tail, x)[i - 1]; }
        }
      }
    }
  }

  /** The knowledge-base table. */
  class KnowledgeBase {
    /** The rows, by text. */
    var entities: map<string, Entity>
    /** The texts in row order. */
    var order: seq<string>

    /** `order` lists every key exactly once. */
    ghost predicate Valid()
      reads this
    {
      && (forall i, j :: 0 <= i < j < |order| ==> order[i] != order[j])
      && (forall k :: k in entities <==> k in order)
    }

    constructor()
      ensures Valid()
      ensures entities == map[] && order == []
    {
      entities := map[];
      order := [];
    }

    /** `get_knowledge_dict`: `{text: label}` over all rows. */
    function Dict(): (d: map<string, string>)
      reads this
      ensures d.Keys == entities.Keys
      ensures forall k :: k in d ==> d[k] == entities[k].labelText
    {
      map k | k in entities :: entities[k].labelText
    }

    /** The dictionary's items in row order, as the merge iterates them. */
    function Snapshot(): (r: seq<Entry>)
      requires Valid()
      reads this
      ensures |r| == |order|
      ensures forall i :: 0 <= i < |r| ==> r[i] == (order[i], entities[order[i]].labelText)
    {
      EntriesOf(order, entities)
    }

    /** The snapshot has each key once, and as a dictionary it is `Dict()`. */
    lemma SnapshotIsDict()
      requires Valid()
      ensures DistinctKeys(Snapshot())
      ensures ToDict(Snapshot()) == Dict()
    {
      var s := Snapshot();
      SnapshotKeys();
      ToDictOfDistinct(s);
      forall k | k in entities ensures ToDict(s)[k] == entities[k].labelText {
        var i :| 0 <= i < |order| && order[i] == k;
        assert s[i].0 == k;
      }
    }

    /** The snapshot's keys are the table's keys, each once. */
    lemma SnapshotKeys()
      requires Valid()
      ensures DistinctKeys(Snapshot())
      ensures Keys(Snapshot()) == entities.Keys
    {
      var s := Snapshot();
      forall k | k in entities ensures k in Keys(s) {
        var i :| 0 <= i < |order| && order[i] == k;
        assert s[i].0 == k;
      }
    }

    /** `add_to_knowledge_base`: insert unless the text is already a key;
        report whether it inserted. */
    method Add(text: string, labelText: string, source: string) returns (inserted: bool)
      requires Valid()
      modifies this
      ensures Valid()
      ensures (entities, inserted) == AddSpec(old(entities), text, labelText, source)
      ensures order == if inserted then old(order) + [text] else old(order)
    {
      if text !in entities {
        entities := entities[text := Entity(labelText, source)];
        order := order + [text];
        inserted := true;
      } else {
        inserted := false;
      }
    }

    /** The add-entity handler: strip both fields, refuse a blank one, and
        report an existing text as an error. */
    method AddEntity(text: string, labelText: string) returns (r: Outcome<KbError>)
      requires Valid()
      modifies this
      ensures Valid()
      ensures Strip(text) == [] || Strip(labelText) == [] ==>
                r == Fail(MissingParameter) && entities == old(entities) && order == old(order)
      ensures Strip(text) != [] && Strip(labelText) != [] ==>
                && (r == Pass <==> Strip(text) !in old(entities))
                && (r != Pass ==> r == Fail(AlreadyExists))
                && entities == AddSpec(old(entities), Strip(text), Strip(labelText), "manual").0
      ensures order == if r == Pass then old(order) + [Strip(text)] else old(order)
    {
      var t, l := Strip(text), Strip(labelText);
      if t == [] || l == [] {
        return Fail(MissingParameter);
      }
      var inserted := Add(t, l, "manual");
      if inserted {
        r := Pass;
      } else {
        r := Fail(AlreadyExists);
      }
    }

    /** The delete-entity handler: an empty text is an error, an unknown
        text is "not found", otherwise the row goes. */
    method DeleteEntity(text: string) returns (r: Outcome<KbError>)
      requires Valid()
      modifies this
      ensures Valid()
      ensures text == [] ==> r == Fail(MissingText) && entities == old(entities)
      ensures text != [] && text !in old(entities) ==> r == Fail(NotFound) && entities == old(entities)
      ensures text != [] && text in old(entities) ==> r == Pass && entities == old(entities) - {text}
      ensures order == if r == Pass then Remove(old(order), text) else old(order)
    {
      if text == [] {
        return Fail(MissingText);
      }
      if text in entities {
        RemoveDistinct(order, text);
        entities := entities - {text};
        order := Remove(order, text);
        r := Pass;
      } else {
        r := Fail(NotFound);
      }
    }

    /** The clear handler: every row goes. */
    method Clear()
      requires Valid()
      modifies this
      ensures Valid()
      ensures entities == map[] && order == []
    {
      entities := map[];
      order := [];
    }

    /** The import handler: offer every importable item to the insert, with
        source "import", and count the rows it added. */
    method Import(items: seq<ImportItem>) returns (importedCount: nat)
      requires Valid()
      modifies this
      ensures Valid()
      ensures (entities, importedCount) == ImportAll(old(entities), items)
      ensures order == ImportOrder(old(entities), old(order), items)
    {
      importedCount := 0;
      for k := 0 to |items|
        invariant Valid()
        invariant (entities, importedCount) == ImportAll(old(entities), items[..k])
        invariant order == ImportOrder(old(entities), old(order), items[..k])
      {
        assert items[..k + 1][..k] == items[..k];
        var item := items[k];
        if !item.Object? {
          continue;
        }
        var text, labelText := item.text, item.labelText;
        if text != [] && labelText != [] {
          var inserted := Add(text, labelText, "import");
          if inserted {
            importedCount := importedCount + 1;
          }
        }
      }
      assert items[..|items|] == items;
    }
  }
}
