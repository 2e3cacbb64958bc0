/** The CSV file of collected posts (`reddit_posts.csv`): whether it exists
    and the rows it holds, with the save and load operations on it. */
module Store {
  import opened Posts
  import opened Dedup

  /** The file as seen by the program: present or absent, and its rows. */
  datatype FileState = FileState(present: bool, rows: seq<Post>)

  /** The file after saving batch onto f: an existing file is replaced by the
      keep-last merge of its rows with the batch, an absent one is created
      holding the batch exactly as given. */
  function SaveTo(f: FileState, batch: seq<Post>): (g: FileState)
    ensures g.present
    ensures KeySet(g.rows) == KeySet(batch) + (if f.present then KeySet(f.rows) else {})
    ensures f.present ==> UniqueKeys(g.rows)
    ensures f.present ==> IsSubsequence(g.rows, f.rows + batch)
    ensures !f.present ==> g.rows == batch
  {
    if f.present then FileState(true, Merge(f.rows, batch)) else FileState(true, batch)
  }

  /** Re-saving an unchanged, deduplicated file with an empty batch leaves it as it was. */
  lemma SaveNothingIdempotent(f: FileState)
    requires f.present && UniqueKeys(f.rows)
    ensures SaveTo(f, []) == f
  {
    MergeNothing(f.rows);
  }

  /** Saving onto an existing file: a batch row that is the last of its identity
      in the batch is the one row with that identity afterwards. */
  lemma SaveIncomingWins(f: FileState, batch: seq<Post>, j: int)
    requires f.present && 0 <= j < |batch| && IsLastOfKey(batch, j)
    ensures batch[j] in SaveTo(f, batch).rows
    ensures forall q :: q in SaveTo(f, batch).rows && KeyOf(q) == KeyOf(batch[j]) ==> q == batch[j]
  {
    IncomingWins(f.rows, batch, j);
  }

  class CsvFile {
    var present: bool
    var rows: seq<Post>

    function State(): FileState
      reads this
    {
      FileState(present, rows)
    }

    /** The file as found on disk before the program runs. */
    constructor (present: bool, rows: seq<Post>)
      ensures State() == FileState(present, rows)
    {
      this.present := present;
      this.rows := rows;
    }

    /** save_posts_to_csv: overwrite the file with the merge of its rows and the batch. */
    method Save(batch: seq<Post>)
      modifies this
      ensures State() == SaveTo(old(State()), batch)
    {
      if present {
        rows := Merge(rows, batch);
      } else {
        rows := batch;
      }
      present := true;
    }

    /** load_posts_from_csv: the stored rows, or an empty table when there is no file. */
    method Load() returns (r: seq<Post>)
      ensures present ==> r == rows
      ensures !present ==> r == []
    {
      if present {
        r := rows;
      } else {
        r := [];
      }
    }
  }
}
