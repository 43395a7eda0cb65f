/** The sidebar menu: six labels, each naming one view, looked up as `menu[grafico]`. */
module Menu {
  import opened Wrappers

  /** The identifiers the menu maps to. */
  type ViewId = x: int | 1 <= x <= 6 witness 1

  /** The menu dictionary in insertion order, which is also the order of the radio options. */
  const Entries: seq<(string, ViewId)> := [
    ("Distribución de Precios por Tipo de Vivienda", 1),
    ("Precio Promedio por Tipo de Vivienda", 2),
    ("Precio Promedio por Delegación", 3),
    ("Distribución de Precios por Delegación", 4),
    ("Relación entre Superficie Total y Precio", 5),
    ("Relación entre Superficie Total y Precio por Metro Cuadrado", 6)
  ]

  /** Indexing the dictionary with a label it lacks raises KeyError. */
  datatype MenuError = UnknownLabel(choice: string)

  /** The identifier of the first entry carrying `choice`. */
  function Find(entries: seq<(string, ViewId)>, choice: string): (r: Option<ViewId>)
    ensures r.None? <==> forall i :: 0 <= i < |entries| ==> entries[i].0 != choice
    ensures r.Some? ==> exists i :: 0 <= i < |entries| && entries[i] == (choice, r.value)
  {
    if entries == [] then None
    else if entries[0].0 == choice then Some(entries[0].1)
    else
      var r := Find(entries[1..], choice);
      assert forall i :: 1 <= i < |entries| ==> entries[i] == entries[1..][i - 1];
      r
  }

  /** `menu[grafico]`: the identifier of a label, or KeyError for any other string. */
  function Lookup(choice: string): (r: Result<ViewId, MenuError>)
    ensures r.Ok? <==> exists i :: 0 <= i < |Entries| && Entries[i].0 == choice
    ensures r.Ok? ==> exists i :: 0 <= i < |Entries| && Entries[i] == (choice, r.value)
    ensures r.Err? ==> r.error == UnknownLabel(choice)
  {
    match Find(Entries, choice)
    case Some(id) => Ok(id)
    case None => Err(UnknownLabel(choice))
  }

  /** No two entries carry the same label. */
  predicate DistinctLabels(entries: seq<(string, ViewId)>)
  {
    forall i, j :: 0 <= i < j < |entries| ==> entries[i].0 != entries[j].0
  }

  /** With distinct labels, the lookup of an entry's label finds that entry. */
  lemma {:induction false} FindDistinct(entries: seq<(string, ViewId)>, i: nat)
    requires DistinctLabels(entries) && i < |entries|
    ensures Find(entries, entries[i].0) == Some(entries[i].1)
  {
    if i > 0 {
      assert entries[0].0 != entries[i].0;
      assert entries[1..][i - 1] == entries[i];
      assert DistinctLabels(entries[1..]) by {
        forall a, b | 0 <= a < b < |entries[1..]|
          ensures entries[1..][a].0 != entries[1..][b].0
        {
          assert entries[1..][a] == entries[a + 1] && entries[1..][b] == entries[b + 1];
        }
      }
      FindDistinct(entries[1..], i - 1);
    }
  }

  /** The six labels differ pairwise: by their first letter, their length, or at the word after "por". */
  lemma EntriesDistinct()
    ensures DistinctLabels(Entries)
  {
    var es := Entries;
    assert es[0].0[0] == 'D' && es[1].0[0] == 'P' && es[2].0[0] == 'P';
    assert es[3].0[0] == 'D' && es[4].0[0] == 'R' && es[5].0[0] == 'R';
    assert es[0].0[28] == 'T' && es[3].0[28] == 'D';
    assert es[1].0[20] == 'T' && es[2].0[20] == 'D';
    assert |es[4].0| != |es[5].0|;
  }

  /** The i-th label (counting from 0) selects view i + 1. */
  lemma LookupEntry(i: nat)
    requires i < |Entries|
    ensures Lookup(Entries[i].0) == Ok(i + 1)
  {
    EntriesDistinct();
    FindDistinct(Entries, i);
  }

  /** Distinct labels never select the same view. */
  lemma LookupInjective(a: string, b: string)
    requires Lookup(a).Ok? && Lookup(a) == Lookup(b)
    ensures a == b
  {
    var i :| 0 <= i < |Entries| && Entries[i] == (a, Lookup(a).value);
    var j :| 0 <= j < |Entries| && Entries[j] == (b, Lookup(b).value);
    LookupEntry(i);
    LookupEntry(j);
  }

  /** Every view has a label that selects it. */
  lemma LookupOnto(id: ViewId)
    ensures Lookup(Entries[id - 1].0) == Ok(id)
  {
    LookupEntry(id - 1);
  }

  /** A string that is not one of the six labels is an error, never a default view. */
  lemma LookupUnknown(choice: string)
    requires forall i :: 0 <= i < |Entries| ==> Entries[i].0 != choice
    ensures Lookup(choice) == Err(UnknownLabel(choice))
  {
  }
}
