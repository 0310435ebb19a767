/**
 * The row-selection state the two size browsers share
 * (`action_toggle_select` in plex_sync/show_size.py and plex_sync/movie_size.py):
 * a set of table row keys, toggled by the row under the cursor.
 */
module Selection {

  import opened Wrappers
  import opened Folds

  /** A table row key. The show browser's row map uses its own counter as the key. */
  datatype RowKey = RowKey(id: int)

  /** Adds the key when absent, removes it when present. */
  function Toggled(selected: set<RowKey>, key: RowKey): (r: set<RowKey>)
    ensures key in r <==> key !in selected
    ensures forall k :: k != key ==> (k in r <==> k in selected)
  {
    if key in selected then selected - {key} else selected + {key}
  }

  /**
   * One toggle at the cursor: it acts only when there is a cursor row, the
   * row exists and the table has a column; otherwise nothing changes.
   */
  function ToggleAt(selected: set<RowKey>, cursor: Option<nat>, rowKeys: seq<RowKey>, columnCount: nat)
    : (r: set<RowKey>)
    ensures cursor.None? || cursor.value >= |rowKeys| || columnCount == 0 ==> r == selected
    ensures cursor.Some? && cursor.value < |rowKeys| && columnCount > 0 ==>
              (rowKeys[cursor.value] in r <==> rowKeys[cursor.value] !in selected)
              && forall k :: k != rowKeys[cursor.value] ==> (k in r <==> k in selected)
  {
    if cursor.Some? && cursor.value < |rowKeys| && columnCount > 0
    then Toggled(selected, rowKeys[cursor.value])
    else selected
  }

  /** Toggling the same row twice restores the selection. */
  lemma ToggleTwice(selected: set<RowKey>, cursor: Option<nat>, rowKeys: seq<RowKey>, columnCount: nat)
    ensures ToggleAt(ToggleAt(selected, cursor, rowKeys, columnCount), cursor, rowKeys, columnCount) == selected
  {
    if cursor.Some? && cursor.value < |rowKeys| && columnCount > 0 {
      var key := rowKeys[cursor.value];
      var once := Toggled(selected, key);
      var twice := Toggled(once, key);
      forall k ensures k in twice <==> k in selected {
        if k == key {
          assert key in once <==> key !in selected;
        }
      }
    }
  }

  /** `order` visits every key of `keys` exactly once: an iteration order of the set. */
  ghost predicate IsOrderOf(order: seq<RowKey>, keys: set<RowKey>) {
    (forall k :: k in order <==> k in keys) && Distinct(order)
  }
}
