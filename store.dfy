/** The question table and the three import operations that fill it: the text
    import, the JSON import (insert or update) and the batch import of a
    folder (insert only). The table is the `timu` table keyed by its primary
    key `id`; the ids the program generates from the clock and a random number
    come from a stream `draw`, one element per generation. */
module Store {
  import opened Text
  import opened Extractor
  import Normalizer
  import Segmenter

  /** The `option` column: the JSON text of a list of options, kept here as the
      list itself, or a text stored as it was given. */
  datatype OptionColumn = Serialized(items: seq<string>) | Verbatim(text: string)

  /** One row of the table, without its key. */
  datatype Record = Record(title: string, option: OptionColumn, answer: string,
                           analysis: string, source: string, createTime: string)

  type Table = map<string, Record>

  /** Every row of `t` is in `u`, unchanged. */
  predicate Extends(t: Table, u: Table) {
    forall k :: k in t ==> k in u && u[k] == t[k]
  }

  datatype ImportError =
    | DuplicateId(id: string)   // the regenerated id of a text question is taken too
    | Unreadable(file: string)  // a supported file of the folder cannot be read
    | Malformed(file: string)   // a JSON file of the folder is not a list of objects

  /** The state of an import in progress: the table, the number of questions
      counted so far and the number of ids drawn; or an import stopped by an
      error, with the rows it had inserted before. */
  datatype Run =
    | Going(table: Table, count: nat, drawn: nat)
    | Aborted(table: Table, error: ImportError)

  /** What an import reports: the number of questions it counted, or the error
      that stopped it (its count is then not reported). */
  datatype ImportResult = Imported(count: nat) | Failed(error: ImportError)

  function Report(r: Run): ImportResult {
    match r
    case Going(_, c, _) => Imported(c)
    case Aborted(_, e) => Failed(e)
  }

  // ---------------------------------------------------------------- text import

  /** The row that a parsed question becomes. */
  function QuestionRecord(q: ParsedQuestion, source: string, now: string): Record {
    Record(q.title, Serialized(q.options), q.answer, q.analysis, source, now)
  }

  /** The row for one question block. */
  function BlockRecord(block: string, source: string, now: string): Record {
    QuestionRecord(ParseBlock(block), source, now)
  }

  /** The rows for the question blocks of a text, in order. */
  function BlockRecords(blocks: seq<string>, source: string, now: string): (recs: seq<Record>)
    ensures |recs| == |blocks|
  {
    seq(|blocks|, i requires 0 <= i < |blocks| => BlockRecord(blocks[i], source, now))
  }

  /** The rows for the questions of a text file's contents. */
  function TxtRecords(text: string, source: string, now: string): (recs: seq<Record>)
    ensures |recs| == |Segmenter.Segment(Normalizer.Normalize(text))|
  {
    BlockRecords(Segmenter.Segment(Normalizer.Normalize(text)), source, now)
  }

  /** Inserting one question: under a freshly drawn id; if that id is taken,
      under a second drawn id; if that one is taken too, the import stops. */
  function StoreOne(r: Run, rec: Record, draw: nat -> string): Run {
    match r
    case Aborted(_, _) => r
    case Going(t, c, d) =>
      if draw(d) !in t then Going(t[draw(d) := rec], c + 1, d + 1)
      else if draw(d + 1) !in t then Going(t[draw(d + 1) := rec], c + 1, d + 2)
      else Aborted(t, DuplicateId(draw(d + 1)))
  }

  /** Inserting the questions one after the other. */
  function StoreAll(r: Run, recs: seq<Record>, draw: nat -> string): Run
    decreases |recs|
  {
    if recs == [] then r
    else StoreOne(StoreAll(r, recs[..|recs| - 1], draw), recs[|recs| - 1], draw)
  }

  /** Inserting one more question is one more step. */
  lemma StoreAllSnoc(r: Run, recs: seq<Record>, i: nat, draw: nat -> string)
    requires i < |recs|
    ensures StoreAll(r, recs[..i + 1], draw) == StoreOne(StoreAll(r, recs[..i], draw), recs[i], draw)
  {
    assert recs[..i + 1][..i] == recs[..i];
  }

  /** Once the insertion of a prefix has stopped, the rest changes nothing. */
  lemma {:induction false} StoreAllStaysAborted(r: Run, recs: seq<Record>, k: nat, draw: nat -> string)
    requires k <= |recs|
    requires StoreAll(r, recs[..k], draw).Aborted?
    ensures StoreAll(r, recs, draw) == StoreAll(r, recs[..k], draw)
    decreases |recs|
  {
    if k < |recs| {
      var init := recs[..|recs| - 1];
      assert init[..k] == recs[..k];
      StoreAllStaysAborted(r, init, k, draw);
    } else {
      assert recs[..k] == recs;
    }
  }

  /** Inserting questions never changes or removes a row. */
  lemma {:induction false} StoreAllOnlyAdds(r: Run, recs: seq<Record>, draw: nat -> string)
    ensures Extends(r.table, StoreAll(r, recs, draw).table)
    decreases |recs|
  {
    if recs != [] {
      StoreAllOnlyAdds(r, recs[..|recs| - 1], draw);
    }
  }

  /** An import that finishes has counted every question and added one row per
      question; one that stops has added fewer rows than there are questions. */
  lemma {:induction false} StoreAllAccounts(t: Table, c: nat, d: nat, recs: seq<Record>, draw: nat -> string)
    ensures var r := StoreAll(Going(t, c, d), recs, draw);
            r.Going? ==> r.count == c + |recs| && |r.table| == |t| + |recs|
                         && d + |recs| <= r.drawn <= d + 2 * |recs|
    ensures var r := StoreAll(Going(t, c, d), recs, draw);
            r.Aborted? ==> |r.table| < |t| + |recs|
    decreases |recs|
  {
    if recs != [] {
      StoreAllAccounts(t, c, d, recs[..|recs| - 1], draw);
    }
  }

  /** The draws `d` to `d + n - 1` are pairwise distinct and none is in `t`. */
  ghost predicate FreshDraws(t: Table, d: nat, n: nat, draw: nat -> string) {
    && (forall k, j :: d <= k < j < d + n ==> draw(k) != draw(j))
    && (forall k :: d <= k < d + n ==> draw(k) !in t)
  }

  /** Question `i` is stored under draw number `d + i`. */
  ghost predicate StoredInOrder(u: Table, d: nat, recs: seq<Record>, draw: nat -> string) {
    forall k :: d <= k < d + |recs| ==> draw(k) in u && u[draw(k)] == recs[k - d]
  }

  /** Every row of `u` was in `t` or is under one of the draws `d` to `d + n - 1`. */
  ghost predicate OnlyDrawnAdded(t: Table, u: Table, d: nat, n: nat, draw: nat -> string) {
    forall id :: id in u ==> id in t || exists k :: d <= k < d + n && draw(k) == id
  }

  /** The outcome of inserting `recs` from `Going(t, c, d)` with fresh ids:
      still going, every question counted, one draw per question, no row
      changed, question `i` under draw `d + i`, and no other row added. */
  ghost predicate FreshOutcome(t: Table, c: nat, d: nat, recs: seq<Record>, r: Run, draw: nat -> string) {
    && r.Going? && r.count == c + |recs| && r.drawn == d + |recs|
    && Extends(t, r.table)
    && StoredInOrder(r.table, d, recs, draw)
    && OnlyDrawnAdded(t, r.table, d, |recs|, draw)
  }

  /** With ids that are pairwise distinct and not yet in the table, the first
      attempt always succeeds: question `i` is stored under the `i`-th drawn id
      and nothing else is added. */
  lemma {:induction false} StoreAllFreshIds(t: Table, c: nat, d: nat, recs: seq<Record>, draw: nat -> string)
    requires FreshDraws(t, d, |recs|, draw)
    ensures FreshOutcome(t, c, d, recs, StoreAll(Going(t, c, d), recs, draw), draw)
    decreases |recs|
  {
    if recs != [] {
      var n := |recs| - 1;
      var init := recs[..n];
      assert FreshDraws(t, d, n, draw);
      StoreAllFreshIds(t, c, d, init, draw);
      var r := StoreAll(Going(t, c, d), init, draw);
      assert StoreAll(Going(t, c, d), recs, draw) == StoreOne(r, recs[n], draw);
      assert recs == init + [recs[n]];
      FreshStep(t, c, d, init, r, recs[n], draw);
    }
  }

  /** One step of the induction above. */
  lemma FreshStep(t: Table, c: nat, d: nat, recs: seq<Record>, r: Run, rec: Record, draw: nat -> string)
    requires FreshDraws(t, d, |recs| + 1, draw)
    requires FreshOutcome(t, c, d, recs, r, draw)
    ensures StoreOne(r, rec, draw) == Going(r.table[draw(r.drawn) := rec], r.count + 1, r.drawn + 1)
    ensures FreshOutcome(t, c, d, recs + [rec], StoreOne(r, rec, draw), draw)
  {
    var id := draw(r.drawn);
    assert id !in r.table by {
      forall k | d <= k < d + |recs| ensures draw(k) != id {
      }
    }
    var u := r.table[id := rec];
    var all := recs + [rec];
    assert StoredInOrder(u, d, all, draw) by {
      forall k | d <= k < d + |all| ensures draw(k) in u && u[draw(k)] == all[k - d] {
        if k < d + |recs| {
          assert all[k - d] == recs[k - d];
        }
      }
    }
    assert OnlyDrawnAdded(t, u, d, |all|, draw) by {
      forall x | x in u ensures x in t || exists k :: d <= k < d + |all| && draw(k) == x {
        if x != id && x !in t {
          var k :| d <= k < d + |recs| && draw(k) == x;
        }
      }
    }
  }

  /** What an insertion of questions reports: the number of questions when it
      finishes, the error when it stops. */
  lemma StoreAllReport(t: Table, recs: seq<Record>, draw: nat -> string)
    ensures var r := StoreAll(Going(t, 0, 0), recs, draw);
            && (r.Going? ==> Report(r) == Imported(|recs|) && |r.table| == |t| + |recs|)
            && (r.Aborted? ==> Report(r) == Failed(r.error) && |r.table| < |t| + |recs|)
  {
    StoreAllAccounts(t, 0, 0, recs, draw);
  }

  /** A text import that finishes reports one question per block of the
      normalised text and has added a row for each; one that stops reports the
      error and has added fewer rows than there are blocks. */
  lemma TextImportAccounts(t: Table, text: string, source: string, now: string, draw: nat -> string)
    ensures var r := StoreAll(Going(t, 0, 0), TxtRecords(text, source, now), draw);
            var n := |Segmenter.Segment(Normalizer.Normalize(text))|;
            && (r.Going? ==> Report(r) == Imported(n) && |r.table| == |t| + n)
            && (r.Aborted? ==> Report(r) == Failed(r.error) && |r.table| < |t| + n)
  {
    StoreAllReport(t, TxtRecords(text, source, now), draw);
  }

  // ---------------------------------------------------------------- JSON import

  /** The value of an item's `option` key: a list, or anything else (kept as
      the text it is stored as). */
  datatype JsonOption = ListValue(items: seq<string>) | OtherValue(text: string)

  /** One object of a JSON file; `None` stands for a missing key. */
  datatype JsonItem = JsonItem(id: Option<string>, title: Option<string>, option: Option<JsonOption>,
                               answer: Option<string>, analysis: Option<string>)

  /** The item's own id, or else the id drawn for it. The default id is drawn
      for every item, whether it is used or not, so item `i` of a file uses
      draw number `d + i`. */
  function ItemId(item: JsonItem, k: nat, draw: nat -> string): string {
    item.id.GetOr(draw(k))
  }

  /** A missing `option` is the empty list; a list is serialised; anything else
      is stored as it is. */
  function OptionColumnOf(o: Option<JsonOption>): OptionColumn {
    match o
    case None => Serialized([])
    case Some(ListValue(xs)) => Serialized(xs)
    case Some(OtherValue(x)) => Verbatim(x)
  }

  /** The row for an item, with missing texts read as empty. */
  function ItemRecord(item: JsonItem, source: string, created: string): Record {
    Record(item.title.GetOr(""), OptionColumnOf(item.option), item.answer.GetOr(""),
           item.analysis.GetOr(""), source, created)
  }

  /** The JSON import: an item whose id is new is inserted; an item whose id
      exists overwrites every column of that row except its creation time. */
  function UpsertAll(t: Table, items: seq<JsonItem>, d: nat, source: string, now: string,
                     draw: nat -> string): Table
    decreases |items|
  {
    if items == [] then t
    else
      var n := |items| - 1;
      var u := UpsertAll(t, items[..n], d, source, now, draw);
      var id := ItemId(items[n], d + n, draw);
      u[id := ItemRecord(items[n], source, if id in u then u[id].createTime else now)]
  }

  /** The last item with a given id decides that row; the row keeps the
      creation time it had before the import, or gets the import's time if it
      is new. */
  lemma {:induction false} UpsertAllLastWins(t: Table, items: seq<JsonItem>, d: nat, source: string,
                                             now: string, draw: nat -> string, i: nat)
    requires i < |items|
    requires forall j :: i < j < |items| ==> ItemId(items[j], d + j, draw) != ItemId(items[i], d + i, draw)
    ensures var id := ItemId(items[i], d + i, draw);
            var u := UpsertAll(t, items, d, source, now, draw);
            id in u && u[id] == ItemRecord(items[i], source, if id in t then t[id].createTime else now)
    decreases |items|
  {
    var n := |items| - 1;
    var id := ItemId(items[i], d + i, draw);
    UpsertAllKeepsRows(t, items[..n], d, source, now, draw);
    if i < n {
      assert forall j :: i < j < n ==> items[..n][j] == items[j];
      UpsertAllLastWins(t, items[..n], d, source, now, draw, i);
    } else {
      var u := UpsertAll(t, items[..n], d, source, now, draw);
      if id in u && id !in t {
        UpsertAllNewRowTime(t, items[..n], d, source, now, draw, id);
      }
    }
  }

  /** Rows are never removed, and a row keeps its creation time. */
  lemma {:induction false} UpsertAllKeepsRows(t: Table, items: seq<JsonItem>, d: nat, source: string,
                                              now: string, draw: nat -> string)
    ensures var u := UpsertAll(t, items, d, source, now, draw);
            forall k :: k in t ==> k in u && u[k].createTime == t[k].createTime
    decreases |items|
  {
    if items != [] {
      UpsertAllKeepsRows(t, items[..|items| - 1], d, source, now, draw);
    }
  }

  /** A row the import created has the import's time. */
  lemma {:induction false} UpsertAllNewRowTime(t: Table, items: seq<JsonItem>, d: nat, source: string,
                                               now: string, draw: nat -> string, k: string)
    requires var u := UpsertAll(t, items, d, source, now, draw); k in u && k !in t
    ensures UpsertAll(t, items, d, source, now, draw)[k].createTime == now
    decreases |items|
  {
    if items != [] {
      var n := |items| - 1;
      var u := UpsertAll(t, items[..n], d, source, now, draw);
      if k in u {
        UpsertAllNewRowTime(t, items[..n], d, source, now, draw, k);
      }
    }
  }

  /** A row that no item names is left as it was, and no row appears that no
      item names. */
  lemma {:induction false} UpsertAllUntouched(t: Table, items: seq<JsonItem>, d: nat, source: string,
                                              now: string, draw: nat -> string, k: string)
    requires forall j :: 0 <= j < |items| ==> ItemId(items[j], d + j, draw) != k
    ensures var u := UpsertAll(t, items, d, source, now, draw);
            (k in u <==> k in t) && (k in t ==> u[k] == t[k])
    decreases |items|
  {
    if items != [] {
      var n := |items| - 1;
      assert forall j :: 0 <= j < n ==> items[..n][j] == items[j];
      UpsertAllUntouched(t, items[..n], d, source, now, draw, k);
    }
  }

  /** The insert-only JSON import of a folder: an item whose id exists is
      skipped and not counted. The result is the new table and the number of
      items inserted, which is exactly the number of rows gained. */
  function InsertNew(t: Table, items: seq<JsonItem>, d: nat, source: string, now: string,
                     draw: nat -> string): (r: (Table, nat))
    ensures |r.0| == |t| + r.1
    ensures r.1 <= |items|
    decreases |items|
  {
    if items == [] then (t, 0)
    else
      var n := |items| - 1;
      var p := InsertNew(t, items[..n], d, source, now, draw);
      var id := ItemId(items[n], d + n, draw);
      if id in p.0 then p else (p.0[id := ItemRecord(items[n], source, now)], p.1 + 1)
  }

  /** Inserting one more item is one more step. */
  lemma InsertNewSnoc(t: Table, items: seq<JsonItem>, i: nat, d: nat, source: string, now: string,
                      draw: nat -> string)
    requires i < |items|
    ensures var p := InsertNew(t, items[..i], d, source, now, draw);
            var id := ItemId(items[i], d + i, draw);
            InsertNew(t, items[..i + 1], d, source, now, draw)
              == if id in p.0 then p else (p.0[id := ItemRecord(items[i], source, now)], p.1 + 1)
  {
    assert items[..i + 1][..i] == items[..i];
  }

  /** No existing row is changed by the insert-only import. */
  lemma {:induction false} InsertNewOnlyAdds(t: Table, items: seq<JsonItem>, d: nat, source: string,
                                             now: string, draw: nat -> string)
    ensures Extends(t, InsertNew(t, items, d, source, now, draw).0)
    decreases |items|
  {
    if items != [] {
      InsertNewOnlyAdds(t, items[..|items| - 1], d, source, now, draw);
    }
  }

  /** Some item of the file carries id `k` (its own or its drawn one). */
  ghost predicate Names(items: seq<JsonItem>, d: nat, draw: nat -> string, k: string) {
    exists j :: 0 <= j < |items| && ItemId(items[j], d + j, draw) == k
  }

  /** The items of a longer file name what its prefix names and what its last
      item carries. */
  lemma NamesSnoc(items: seq<JsonItem>, d: nat, draw: nat -> string, k: string)
    requires items != []
    ensures var n := |items| - 1;
            Names(items, d, draw, k) <==> Names(items[..n], d, draw, k) || ItemId(items[n], d + n, draw) == k
  {
    var n := |items| - 1;
    if Names(items[..n], d, draw, k) {
      var j :| 0 <= j < n && ItemId(items[..n][j], d + j, draw) == k;
      assert items[..n][j] == items[j];
    }
    if Names(items, d, draw, k) {
      var j :| 0 <= j < |items| && ItemId(items[j], d + j, draw) == k;
      if j < n {
        assert items[..n][j] == items[j];
      }
    }
  }

  /** After the insert-only import, an id is in the table exactly when it was
      there before or some item carries it. */
  lemma {:induction false} InsertNewKeys(t: Table, items: seq<JsonItem>, d: nat, source: string,
                                         now: string, draw: nat -> string, k: string)
    ensures k in InsertNew(t, items, d, source, now, draw).0 <==> k in t || Names(items, d, draw, k)
    decreases |items|
  {
    if items != [] {
      InsertNewKeys(t, items[..|items| - 1], d, source, now, draw, k);
      NamesSnoc(items, d, draw, k);
    }
  }

  /** The first item with a new id decides that row; later items with the same
      id are skipped. */
  lemma {:induction false} InsertNewFirstWins(t: Table, items: seq<JsonItem>, d: nat, source: string,
                                              now: string, draw: nat -> string, i: nat)
    requires i < |items|
    requires ItemId(items[i], d + i, draw) !in t
    requires forall j :: 0 <= j < i ==> ItemId(items[j], d + j, draw) != ItemId(items[i], d + i, draw)
    ensures var id := ItemId(items[i], d + i, draw);
            var u := InsertNew(t, items, d, source, now, draw).0;
            id in u && u[id] == ItemRecord(items[i], source, now)
    decreases |items|
  {
    var n := |items| - 1;
    var init := items[..n];
    var id := ItemId(items[i], d + i, draw);
    if i < n {
      assert forall j :: 0 <= j < i ==> init[j] == items[j];
      InsertNewFirstWins(t, init, d, source, now, draw, i);
      InsertNewOnlyAddsFrom(t, init, items, d, source, now, draw, id);
    } else {
      InsertNewLastNew(t, items, d, source, now, draw);
    }
  }

  /** The last item, when its id is neither in the table nor carried by an
      earlier item, is inserted. */
  lemma InsertNewLastNew(t: Table, items: seq<JsonItem>, d: nat, source: string, now: string,
                         draw: nat -> string)
    requires items != []
    requires var n := |items| - 1;
             var id := ItemId(items[n], d + n, draw);
             id !in t && forall j :: 0 <= j < n ==> ItemId(items[j], d + j, draw) != id
    ensures var n := |items| - 1;
            var id := ItemId(items[n], d + n, draw);
            var u := InsertNew(t, items, d, source, now, draw).0;
            id in u && u[id] == ItemRecord(items[n], source, now)
  {
    var n := |items| - 1;
    var init := items[..n];
    var id := ItemId(items[n], d + n, draw);
    InsertNewKeys(t, init, d, source, now, draw, id);
    assert !Names(init, d, draw, id) by {
      forall j | 0 <= j < n ensures ItemId(init[j], d + j, draw) != id {
        assert init[j] == items[j];
      }
    }
  }

  /** Inserting the last item keeps every row the prefix produced. */
  lemma InsertNewOnlyAddsFrom(t: Table, init: seq<JsonItem>, items: seq<JsonItem>, d: nat, source: string,
                              now: string, draw: nat -> string, k: string)
    requires items != [] && init == items[..|items| - 1]
    requires k in InsertNew(t, init, d, source, now, draw).0
    ensures k in InsertNew(t, items, d, source, now, draw).0
    ensures InsertNew(t, items, d, source, now, draw).0[k] == InsertNew(t, init, d, source, now, draw).0[k]
  {
  }

  // ---------------------------------------------------------------- batch import

  /** The position of the last `.` in `s[..n]`. */
  function LastDot(s: string, n: nat): (r: Option<nat>)
    requires n <= |s|
    ensures r.Some? ==> r.value < n && s[r.value] == '.' && forall k :: r.value < k < n ==> s[k] != '.'
    ensures r.None? ==> forall k :: 0 <= k < n ==> s[k] != '.'
  {
    if n == 0 then None
    else if s[n - 1] == '.' then Some(n - 1)
    else LastDot(s, n - 1)
  }

  /** `os.path.splitext(name)[1]` for a plain file name: from the last `.` to
      the end, provided some character other than `.` comes before that `.`;
      otherwise empty (so `.txt` and `..txt` have no extension). */
  function Extension(name: string): (e: string)
    ensures e == [] || (|e| <= |name| && e == name[|name| - |e|..] && e[0] == '.'
                        && (forall k :: 1 <= k < |e| ==> e[k] != '.')
                        && exists k :: 0 <= k < |name| - |e| && name[k] != '.')
    ensures e == [] ==> forall i :: 0 <= i < |name| && name[i] == '.' ==>
                          forall k :: 0 <= k < i ==> name[k] == '.'
  {
    match LastDot(name, |name|)
    case None => []
    case Some(i) =>
      if exists k :: 0 <= k < i && name[k] != '.' then name[i..] else []
  }

  /** The ASCII upper-case letters made lower-case; no other character lowers
      to a letter of `.txt` or `.json`. */
  function AsciiLower(s: string): (r: string)
    ensures |r| == |s|
    ensures forall i :: 0 <= i < |s| ==> r[i] == (if 'A' <= s[i] <= 'Z' then (s[i] as int + 32) as char else s[i])
  {
    if s == [] then []
    else [if 'A' <= s[0] <= 'Z' then (s[0] as int + 32) as char else s[0]] + AsciiLower(s[1..])
  }

  datatype FileKind = TextFile | JsonFile | Unsupported

  /** The import a folder entry gets, by its extension in lower case. */
  function Kind(name: string): FileKind {
    var e := AsciiLower(Extension(name));
    if e == ".txt" then TextFile else if e == ".json" then JsonFile else Unsupported
  }

  /** An entry of the folder: its name, and its contents, or `None` when the
      file cannot be read as UTF-8 text (a directory, a bad encoding). */
  datatype Entry = Entry(name: string, content: Option<string>)

  /** The text branch for one file: its questions inserted as in the text
      import, with the file name as their source. */
  function ImportText(r: Run, name: string, text: string, now: string, draw: nat -> string): Run {
    StoreAll(r, TxtRecords(text, name, now), draw)
  }

  /** The JSON branch for one file: its items inserted if their id is new. */
  function ImportJson(t: Table, c: nat, d: nat, name: string, items: seq<JsonItem>, now: string,
                      draw: nat -> string): Run {
    var p := InsertNew(t, items, d, name, now, draw);
    Going(p.0, c + p.1, d + |items|)
  }

  /** One entry of the folder. `decode` is `json.load`: the items of a file
      that holds a list of objects, or `None`. */
  function ImportEntry(r: Run, e: Entry, now: string, decode: string -> Option<seq<JsonItem>>,
                       draw: nat -> string): Run
  {
    match r
    case Aborted(_, _) => r
    case Going(t, c, d) =>
      match Kind(e.name)
      case Unsupported => r
      case TextFile =>
        if e.content.None? then Aborted(t, Unreadable(e.name))
        else ImportText(r, e.name, e.content.value, now, draw)
      case JsonFile =>
        if e.content.None? then Aborted(t, Unreadable(e.name))
        else match decode(e.content.value)
          case None => Aborted(t, Malformed(e.name))
          case Some(items) => ImportJson(t, c, d, e.name, items, now, draw)
  }

  /** The batch import: the entries in the order the folder lists them, all
      inside one error handler. */
  function BatchAll(r: Run, entries: seq<Entry>, now: string, decode: string -> Option<seq<JsonItem>>,
                    draw: nat -> string): Run
    decreases |entries|
  {
    if entries == [] then r
    else ImportEntry(BatchAll(r, entries[..|entries| - 1], now, decode, draw), entries[|entries| - 1], now, decode, draw)
  }

  /** The batch import never changes or removes a row, whether it finishes or
      stops. */
  lemma {:induction false} BatchOnlyAdds(r: Run, entries: seq<Entry>, now: string,
                                         decode: string -> Option<seq<JsonItem>>, draw: nat -> string)
    ensures Extends(r.table, BatchAll(r, entries, now, decode, draw).table)
    decreases |entries|
  {
    if entries != [] {
      var n := |entries| - 1;
      var b := BatchAll(r, entries[..n], now, decode, draw);
      BatchOnlyAdds(r, entries[..n], now, decode, draw);
      if b.Going? {
        var e := entries[n];
        match Kind(e.name)
        case Unsupported =>
        case TextFile =>
          if e.content.Some? {
            StoreAllOnlyAdds(b, TxtRecords(e.content.value, e.name, now), draw);
          }
        case JsonFile =>
          if e.content.Some? && decode(e.content.value).Some? {
            InsertNewOnlyAdds(b.table, decode(e.content.value).value, b.drawn, e.name, now, draw);
          }
      }
    }
  }

  /** Importing one more entry is one more step. */
  lemma BatchSnoc(r: Run, entries: seq<Entry>, i: nat, now: string,
                  decode: string -> Option<seq<JsonItem>>, draw: nat -> string)
    requires i < |entries|
    ensures BatchAll(r, entries[..i + 1], now, decode, draw)
            == ImportEntry(BatchAll(r, entries[..i], now, decode, draw), entries[i], now, decode, draw)
  {
    assert entries[..i + 1][..i] == entries[..i];
  }

  /** Once the batch has stopped, the remaining entries are not imported. */
  lemma {:induction false} BatchStaysAborted(r: Run, entries: seq<Entry>, k: nat, now: string,
                                             decode: string -> Option<seq<JsonItem>>, draw: nat -> string)
    requires k <= |entries|
    requires BatchAll(r, entries[..k], now, decode, draw).Aborted?
    ensures BatchAll(r, entries, now, decode, draw) == BatchAll(r, entries[..k], now, decode, draw)
    decreases |entries|
  {
    if k < |entries| {
      var init := entries[..|entries| - 1];
      assert init[..k] == entries[..k];
      BatchStaysAborted(r, init, k, now, decode, draw);
    } else {
      assert entries[..k] == entries;
    }
  }

  /** A supported file that cannot be read stops the whole batch: every later
      file is skipped and no count is reported. */
  lemma BatchUnreadableStops(r: Run, entries: seq<Entry>, k: nat, now: string,
                             decode: string -> Option<seq<JsonItem>>, draw: nat -> string)
    requires k < |entries|
    requires Kind(entries[k].name) != Unsupported && entries[k].content.None?
    ensures var b := BatchAll(r, entries, now, decode, draw);
            b.Aborted? && b == BatchAll(r, entries[..k + 1], now, decode, draw)
  {
    BatchSnoc(r, entries, k, now, decode, draw);
    BatchStaysAborted(r, entries, k + 1, now, decode, draw);
  }

  /** Entries without a supported extension change nothing. */
  lemma {:induction false} BatchSkipsUnsupported(r: Run, entries: seq<Entry>, now: string,
                                                 decode: string -> Option<seq<JsonItem>>, draw: nat -> string)
    requires forall i :: 0 <= i < |entries| ==> Kind(entries[i].name) == Unsupported
    ensures BatchAll(r, entries, now, decode, draw) == r
    decreases |entries|
  {
    if entries != [] {
      BatchSkipsUnsupported(r, entries[..|entries| - 1], now, decode, draw);
    }
  }

  /** The extension is compared in lower case. */
  lemma KindIgnoresCase()
    ensures Kind("paper.TXT") == TextFile
  {
    assert LastDot("paper.TXT", 9) == Some(5);
    assert "paper.TXT"[0] != '.';
    assert "paper.TXT"[5..] == ".TXT";
    assert AsciiLower(".TXT") == ".txt";
  }

  /** Only the last extension counts. */
  lemma KindUsesLastExtension()
    ensures Kind("bank.v2.json") == JsonFile
  {
    assert LastDot("bank.v2.json", 12) == Some(7);
    assert "bank.v2.json"[0] != '.';
    assert "bank.v2.json"[7..] == ".json";
  }

  /** Other extensions are not imported. */
  lemma KindOtherExtension()
    ensures Kind("notes.md") == Unsupported
  {
    assert LastDot("notes.md", 8) == Some(5);
  }

  /** A name that is only dots before its extension has none, so a file
      named `.json` is not imported. */
  lemma KindDotFile()
    ensures Kind(".json") == Unsupported
  {
    assert LastDot(".json", 5) == Some(0);
  }

  // ---------------------------------------------------------------- the table

  /** The program's question table. */
  class QuestionBank {
    var table: Table

    constructor(initial: Table)
      ensures table == initial
    {
      table := initial;
    }

    /** Parses and inserts the question blocks one after the other, as the
        loops of the text import and of the batch import's text branch do. */
    method StoreQuestions(blocks: seq<string>, source: string, now: string, count: nat, drawn: nat,
                          draw: nat -> string) returns (run: Run)
      modifies this
      ensures run == StoreAll(Going(old(table), count, drawn), BlockRecords(blocks, source, now), draw)
      ensures table == run.table
    {
      ghost var recs := BlockRecords(blocks, source, now);
      ghost var start := Going(table, count, drawn);
      run := Going(table, count, drawn);
      var i := 0;
      assert recs[..0] == [];
      while i < |blocks|
        invariant 0 <= i <= |blocks|
        invariant run.Going? && run == StoreAll(start, recs[..i], draw)
        invariant table == run.table
      {
        var rec := BlockRecord(blocks[i], source, now);
        StoreAllSnoc(start, recs, i, draw);
        var id := draw(run.drawn);
        if id !in table {
          table := table[id := rec];
          run := Going(table, run.count + 1, run.drawn + 1);
        } else {
          id := draw(run.drawn + 1);
          if id !in table {
            table := table[id := rec];
            run := Going(table, run.count + 1, run.drawn + 2);
          } else {
            run := Aborted(table, DuplicateId(id));
            StoreAllStaysAborted(start, recs, i + 1, draw);
            return;
          }
        }
        i := i + 1;
      }
      assert recs[..i] == recs;
    }

    /** The text import of one file's contents: normalise, split into
        question blocks and insert them with fresh ids. */
    method ImportFromTxt(text: string, source: string, now: string, draw: nat -> string)
      returns (result: ImportResult)
      modifies this
      ensures var r := StoreAll(Going(old(table), 0, 0), TxtRecords(text, source, now), draw);
              table == r.table && result == Report(r)
    {
      var data := Normalizer.Normalize(text);
      var blocks := Segmenter.Segment(data);
      var run := StoreQuestions(blocks, source, now, 0, 0, draw);
      result := Report(run);
    }

    /** The JSON import of one file's items: insert or update each; every item
        is counted. */
    method ImportFromJson(items: seq<JsonItem>, source: string, now: string, draw: nat -> string)
      returns (count: nat)
      modifies this
      ensures table == UpsertAll(old(table), items, 0, source, now, draw)
      ensures count == |items|
    {
      ghost var t0 := table;
      count := 0;
      var i := 0;
      assert items[..0] == [];
      while i < |items|
        invariant 0 <= i <= |items|
        invariant table == UpsertAll(t0, items[..i], 0, source, now, draw)
        invariant count == i
      {
        assert items[..i + 1][..i] == items[..i];
        var id := ItemId(items[i], i, draw);
        if id !in table {
          table := table[id := ItemRecord(items[i], source, now)];
        } else {
          table := table[id := ItemRecord(items[i], source, table[id].createTime)];
        }
        count := count + 1;
        i := i + 1;
      }
      assert items[..i] == items;
    }

    /** The batch import's JSON branch: insert every item whose id is new and
        skip the others. */
    method InsertNewItems(items: seq<JsonItem>, drawn: nat, source: string, now: string, draw: nat -> string)
      returns (added: nat)
      modifies this
      ensures table == InsertNew(old(table), items, drawn, source, now, draw).0
      ensures added == InsertNew(old(table), items, drawn, source, now, draw).1
    {
      ghost var t0 := table;
      added := 0;
      var i := 0;
      assert items[..0] == [];
      while i < |items|
        invariant 0 <= i <= |items|
        invariant table == InsertNew(t0, items[..i], drawn, source, now, draw).0
        invariant added == InsertNew(t0, items[..i], drawn, source, now, draw).1
      {
        InsertNewSnoc(t0, items, i, drawn, source, now, draw);
        var id := ItemId(items[i], drawn + i, draw);
        if id !in table {
          table := table[id := ItemRecord(items[i], source, now)];
          added := added + 1;
        }
        i := i + 1;
      }
      assert items[..i] == items;
    }

    /** The batch import's text branch for one readable file. */
    method ImportTextFile(run: Run, name: string, text: string, now: string, draw: nat -> string)
      returns (next: Run)
      requires run.Going? && run.table == table
      modifies this
      ensures next == ImportText(run, name, text, now, draw)
      ensures table == next.table
    {
      var blocks := Segmenter.Segment(Normalizer.Normalize(text));
      next := StoreQuestions(blocks, name, now, run.count, run.drawn, draw);
    }

    /** The batch import's JSON branch for one file that holds a list. */
    method ImportJsonFile(run: Run, name: string, items: seq<JsonItem>, now: string, draw: nat -> string)
      returns (next: Run)
      requires run.Going? && run.table == table
      modifies this
      ensures next == ImportJson(run.table, run.count, run.drawn, name, items, now, draw)
      ensures table == next.table
    {
      var added := InsertNewItems(items, run.drawn, name, now, draw);
      next := Going(table, run.count + added, run.drawn + |items|);
    }

    /** The batch import's handling of one folder entry, for an import that
        has not stopped. */
    method ImportOneEntry(run: Run, e: Entry, now: string, decode: string -> Option<seq<JsonItem>>,
                          draw: nat -> string) returns (next: Run)
      requires run.Going? && run.table == table
      modifies this
      ensures next == ImportEntry(run, e, now, decode, draw)
      ensures table == next.table
    {
      next := run;
      var kind := Kind(e.name);
      if kind == TextFile {
        if e.content.None? {
          next := Aborted(table, Unreadable(e.name));
        } else {
          next := ImportTextFile(run, e.name, e.content.value, now, draw);
        }
      } else if kind == JsonFile {
        if e.content.None? {
          next := Aborted(table, Unreadable(e.name));
        } else {
          var data := decode(e.content.value);
          if data.None? {
            next := Aborted(table, Malformed(e.name));
          } else {
            next := ImportJsonFile(run, e.name, data.value, now, draw);
          }
        }
      }
    }

    /** The batch import of a folder's entries, in the order the folder lists
        them; the first error stops it. */
    method BatchImportFromFolder(entries: seq<Entry>, now: string, decode: string -> Option<seq<JsonItem>>,
                                 draw: nat -> string) returns (result: ImportResult)
      modifies this
      ensures var r := BatchAll(Going(old(table), 0, 0), entries, now, decode, draw);
              table == r.table && result == Report(r)
    {
      ghost var start := Going(table, 0, 0);
      var run := Going(table, 0, 0);
      var i := 0;
      assert entries[..0] == [];
      while i < |entries|
        invariant 0 <= i <= |entries|
        invariant run.Going? && run == BatchAll(start, entries[..i], now, decode, draw)
        invariant table == run.table
      {
        BatchSnoc(start, entries, i, now, decode, draw);
        run := ImportOneEntry(run, entries[i], now, decode, draw);
        if run.Aborted? {
          BatchStaysAborted(start, entries, i + 1, now, decode, draw);
          result := Report(run);
          return;
        }
        i := i + 1;
      }
      assert entries[..i] == entries;
      result := Report(run);
    }
  }
}
