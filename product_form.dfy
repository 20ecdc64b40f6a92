/** The specification and packaging rows of the two admin product forms of the
    React client. A row has a label and a value in each of the three
    languages, the same shape as what the server stores, so a row is a
    `ChildInput`. The list handlers of the forms are the functions here. */
module ProductForm {
  import opened Base
  import opened Schema

  /** The six inputs of one row (`keyof Specification`). */
  datatype Part = LabelEn | LabelFr | LabelAr | ValueEn | ValueFr | ValueAr

  function Get(e: ChildInput, f: Part): string {
    match f
    case LabelEn => e.labels.en
    case LabelFr => e.labels.fr
    case LabelAr => e.labels.ar
    case ValueEn => e.values.en
    case ValueFr => e.values.fr
    case ValueAr => e.values.ar
  }

  /** `{ ...e, [f]: v }`: the row with input `f` replaced. */
  function Set(e: ChildInput, f: Part, v: string): (r: ChildInput)
    ensures Get(r, f) == v
    ensures forall g :: g != f ==> Get(r, g) == Get(e, g)
  {
    match f
    case LabelEn => e.(labels := e.labels.(en := v))
    case LabelFr => e.(labels := e.labels.(fr := v))
    case LabelAr => e.(labels := e.labels.(ar := v))
    case ValueEn => e.(values := e.values.(en := v))
    case ValueFr => e.(values := e.values.(fr := v))
    case ValueAr => e.(values := e.values.(ar := v))
  }

  /** The six inputs determine the row. */
  lemma PartsDetermine(a: ChildInput, b: ChildInput)
    requires forall f :: Get(a, f) == Get(b, f)
    ensures a == b
  {
    assert Get(a, LabelEn) == Get(b, LabelEn) && Get(a, LabelFr) == Get(b, LabelFr);
    assert Get(a, LabelAr) == Get(b, LabelAr) && Get(a, ValueEn) == Get(b, ValueEn);
    assert Get(a, ValueFr) == Get(b, ValueFr) && Get(a, ValueAr) == Get(b, ValueAr);
  }

  /** A row whose six inputs are empty. */
  const Blank := ChildInput(Localized("", "", ""), Localized("", "", ""))

  lemma BlankIsEmpty()
    ensures forall f :: Get(Blank, f) == ""
  {
  }

  /** `addSpecification` / `addPackaging`: one blank row at the end. */
  function Appended(list: seq<ChildInput>): (r: seq<ChildInput>)
    ensures |r| == |list| + 1 && r[..|list|] == list && r[|list|] == Blank
  {
    list + [Blank]
  }

  /** `list.filter((_, i) => i !== index)`: the row at `index` goes, the
      others stay in order; an index outside the list removes nothing. */
  function RemovedAt(list: seq<ChildInput>, index: int): (r: seq<ChildInput>)
    ensures 0 <= index < |list| ==> r == list[..index] + list[index + 1..]
    ensures !(0 <= index < |list|) ==> r == list
  {
    if list == [] then []
    else if index == 0 then list[1..]
    else
      var rest := RemovedAt(list[1..], index - 1);
      assert 0 < index < |list| ==> list[1..][..index - 1] == list[1..index] && list[1..][index..] == list[index + 1..];
      assert 0 < index < |list| ==> [list[0]] + list[1..index] == list[..index];
      assert list == [list[0]] + list[1..];
      [list[0]] + rest
  }

  /** Removing the row just added gives the list back. */
  lemma RemoveAppended(list: seq<ChildInput>)
    ensures RemovedAt(Appended(list), |list|) == list
  {
    assert Appended(list)[..|list|] == list;
  }

  /** Removal drops exactly one occurrence of the row at `index`. */
  lemma RemovedAtMultiset(list: seq<ChildInput>, index: int)
    requires 0 <= index < |list|
    ensures multiset(RemovedAt(list, index)) + multiset{list[index]} == multiset(list)
  {
    var a, b := list[..index], list[index + 1..];
    assert list == a + [list[index]] + b;
    MultisetSplit(a, list[index], b);
  }

  lemma MultisetSplit<T>(a: seq<T>, x: T, b: seq<T>)
    ensures multiset(a + [x] + b) == multiset(a + b) + multiset{x}
  {
    assert a + [x] + b == (a + [x]) + b;
  }

  /** `updated[index][f] = v` on a copy of the list: input `f` of row `index`
      changes and nothing else does. */
  function UpdatedAt(list: seq<ChildInput>, index: nat, f: Part, v: string): (r: seq<ChildInput>)
    requires index < |list|
    ensures |r| == |list|
    ensures Get(r[index], f) == v
    ensures forall g :: g != f ==> Get(r[index], g) == Get(list[index], g)
    ensures forall k :: 0 <= k < |list| && k != index ==> r[k] == list[k]
  {
    list[index := Set(list[index], f, v)]
  }

  /** Setting an input to the value it already has changes nothing. */
  lemma UpdateSameValue(list: seq<ChildInput>, index: nat, f: Part)
    requires index < |list|
    ensures UpdatedAt(list, index, f, Get(list[index], f)) == list
  {
    var r := UpdatedAt(list, index, f, Get(list[index], f));
    PartsDetermine(r[index], list[index]);
  }
}
