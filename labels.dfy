/**
 * The label text written on a receive address: a base text followed by the
 * ids of every trade that uses the address, as in
 * `labelBase + ' #' + ids.join(', #')`.
 */
module Labels {
  import opened Wrappers

  /** The text `Array.prototype.join` puts between two ids of a label. */
  const Separator: string := ", #"

  /** JavaScript's `parts.join(sep)`: the parts with `sep` between neighbours. */
  function Join(parts: seq<string>, sep: string): (joined: string)
    ensures |parts| > 0 ==> parts[0] <= joined
  {
    if |parts| == 0 then ""
    else if |parts| == 1 then parts[0]
    else parts[0] + sep + Join(parts[1..], sep)
  }

  /** `base + ' #' + ids.join(', #')`: the label of an address used by the trades `ids`. */
  function OrderLabel(base: string, ids: seq<string>): (text: string)
    ensures |ids| > 0 ==> base + " #" + ids[0] <= text
  {
    base + " #" + Join(ids, Separator)
  }

  /** Appending one more part adds the separator and that part at the end. */
  lemma {:induction false} JoinSnoc(parts: seq<string>, sep: string, last: string)
    requires |parts| > 0
    ensures Join(parts + [last], sep) == Join(parts, sep) + sep + last
  {
    if |parts| == 1 {
      assert parts + [last] == [parts[0], last];
      assert ([parts[0], last])[1..] == [last];
    } else {
      assert (parts + [last])[1..] == parts[1..] + [last];
      JoinSnoc(parts[1..], sep, last);
    }
  }

  /**
   * A commit adds its trade's id at the end of the label: the label of the
   * trades already on the address, then `, #` and the new id; with no trade on
   * the address the label is the base and the new id alone.
   */
  lemma CommitLabelAppends(base: string, ids: seq<string>, id: string)
    ensures ids == [] ==> OrderLabel(base, ids + [id]) == base + " #" + id
    ensures ids != [] ==> OrderLabel(base, ids + [id]) == OrderLabel(base, ids) + Separator + id
  {
    if ids == [] {
      assert ids + [id] == [id];
    } else {
      JoinSnoc(ids, Separator, id);
    }
  }

  /** An id the label can be split back into: one without a comma. */
  predicate CommaFree(id: string)
  {
    forall k :: 0 <= k < |id| ==> id[k] != ','
  }

  /** The position of the first comma of `s`, or `|s|` when there is none. */
  function FirstComma(s: string): (k: nat)
    ensures k <= |s|
    ensures k < |s| ==> s[k] == ','
    ensures CommaFree(s[..k])
  {
    if |s| == 0 then 0
    else if s[0] == ',' then 0
    else
      var k := FirstComma(s[1..]);
      assert s[..k + 1] == [s[0]] + s[1..][..k];
      k + 1
  }

  /** Splits a joined id list at every `, #` (the inverse of `Join(_, Separator)`). */
  function SplitIds(s: string): (ids: seq<string>)
    ensures |ids| > 0
    decreases |s|
  {
    var k := FirstComma(s);
    if k + 3 <= |s| && s[k..k + 3] == Separator then [s[..k]] + SplitIds(s[k + 3..])
    else [s]
  }

  /** Reads the id list back out of a label with the given base, if it has that base. */
  function ParseLabel(base: string, text: string): (ids: Option<seq<string>>)
  {
    var prefix := base + " #";
    if |prefix| <= |text| && text[..|prefix|] == prefix then Some(SplitIds(text[|prefix|..]))
    else None
  }

  /** Splitting a join of comma-free ids gives the ids back, in order. */
  lemma {:induction false} SplitJoin(ids: seq<string>)
    requires |ids| > 0
    requires forall i :: 0 <= i < |ids| ==> CommaFree(ids[i])
    ensures SplitIds(Join(ids, Separator)) == ids
  {
    if |ids| > 1 {
      var head, tail := ids[0], ids[1..];
      assert CommaFree(head);
      assert ids == [head] + tail;
      assert Join(ids, Separator) == head + Separator + Join(tail, Separator);
      SplitJoin(tail);
      SplitIdsCons(head, Join(tail, Separator));
    } else {
      SplitIdsSingle(ids[0]);
    }
  }

  /** A comma-free id followed by the separator splits off as the first id. */
  lemma SplitIdsCons(id: string, rest: string)
    requires CommaFree(id)
    ensures SplitIds(id + Separator + rest) == [id] + SplitIds(rest)
  {
    var s := id + Separator + rest;
    var k := |id|;
    assert s == id + (Separator + rest);
    FirstCommaAfterCommaFree(id, Separator + rest);
    assert s[k..k + 3] == Separator;
    assert s[..k] == id;
    assert s[k + 3..] == rest;
  }

  /** A comma-free id on its own splits into just itself. */
  lemma SplitIdsSingle(id: string)
    requires CommaFree(id)
    ensures SplitIds(id) == [id]
  {
  }

  /** The first comma of `a + b` lies in `b` when `a` has none. */
  lemma {:induction false} FirstCommaAfterCommaFree(a: string, b: string)
    requires CommaFree(a)
    requires b == [] || b[0] == ','
    ensures FirstComma(a + b) == |a|
  {
    if |a| > 0 {
      assert (a + b)[1..] == a[1..] + b;
      FirstCommaAfterCommaFree(a[1..], b);
    } else {
      assert a + b == b;
    }
  }

  /**
   * A label states exactly which trades use its address: parsing the label of
   * a non-empty list of comma-free ids gives that list back.
   */
  lemma ParseOrderLabel(base: string, ids: seq<string>)
    requires |ids| > 0
    requires forall i :: 0 <= i < |ids| ==> CommaFree(ids[i])
    ensures ParseLabel(base, OrderLabel(base, ids)) == Some(ids)
  {
    var text := OrderLabel(base, ids);
    assert text[..|base + " #"|] == base + " #";
    assert text[|base + " #"|..] == Join(ids, Separator);
    SplitJoin(ids);
  }

  /** Two id lists never share a label: the label determines the trades on the address. */
  lemma OrderLabelInjective(base: string, ids1: seq<string>, ids2: seq<string>)
    requires |ids1| > 0 && |ids2| > 0
    requires forall i :: 0 <= i < |ids1| ==> CommaFree(ids1[i])
    requires forall i :: 0 <= i < |ids2| ==> CommaFree(ids2[i])
    requires OrderLabel(base, ids1) == OrderLabel(base, ids2)
    ensures ids1 == ids2
  {
    ParseOrderLabel(base, ids1);
    ParseOrderLabel(base, ids2);
  }
}
