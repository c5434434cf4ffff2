/**
 * The older app's sidebar. Its selection queries, NaN-marker parsing,
 * time-step mode, descriptions, option labels and selection refreshes are
 * the same code as the newer sidebar's, which `Sidebar` models; only the
 * variable list differs: it offers every catalog variable, with no metadata
 * filtering.
 */
module LegacySidebar {
  import opened Wrappers
  import opened Collections
  import opened Ordering
  import opened Ismip6Index
  import Sidebar

  /** `sorted(file_index['variable'].unique())`, or nothing for an empty catalog. */
  function AvailableVariables(rows: seq<CatalogRecord>): (r: seq<string>)
    ensures StrictlySorted(r)
    ensures forall v :: v in r <==> exists i :: 0 <= i < |rows| && rows[i].variable == v
  {
    if |rows| == 0 then []
    else
      var column := Sidebar.VariableColumn(rows);
      assert forall v :: v in column <==> exists i :: 0 <= i < |rows| && rows[i].variable == v by {
        forall v | exists i :: 0 <= i < |rows| && rows[i].variable == v ensures v in column {
          var i :| 0 <= i < |rows| && rows[i].variable == v;
          assert column[i] == v;
        }
      }
      SortedSet(Unique(column))
  }

  /**
   * Without a `variables` key in the metadata, the newer sidebar offers
   * exactly the variables the older one does.
   */
  lemma AgreesWithoutMetadata(rows: seq<CatalogRecord>)
    ensures Sidebar.SpatialVariables(rows, None) == AvailableVariables(rows)
  {
    SortedUnique(Sidebar.SpatialVariables(rows, None), AvailableVariables(rows));
  }

  /**
   * Metadata only removes variables: whatever the newer sidebar offers, the
   * older one offers too, and a variable the older one offers is missing
   * from the newer list only when the metadata marks it as scalar.
   */
  lemma MetadataOnlyNarrows(rows: seq<CatalogRecord>, meta: Sidebar.VariableMetadata, v: string)
    ensures v in Sidebar.SpatialVariables(rows, meta) ==> v in AvailableVariables(rows)
    ensures v in AvailableVariables(rows) && v !in Sidebar.SpatialVariables(rows, meta) ==>
      meta.Some? && Sidebar.Attr(Get(meta.value, v).GetOr([]), "variable_type", "2D") == "scalar"
  {
  }
}
