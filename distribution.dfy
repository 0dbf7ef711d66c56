/** The DiscreteDistribution class: a frequency table of string items that
    keeps its items in insertion order, with a running sum that the add and
    remove operations adjust. Errors the source raises are returned as
    `Err`/`Fail` values. */
module Distributions {
  import opened Errors
  import opened DistributionSpec
  import VectorSpec

  class DiscreteDistribution {
    /** The keys in insertion order. */
    var items: seq<string>
    /** The count stored for each key. */
    var counts: map<string, int>
    /** The running sum the operations maintain next to the counts. */
    var sum: int

    /** The ordered keys are distinct and are exactly the keys of the count map. */
    ghost predicate Valid()
      reads this
    {
      Distinct(items) && counts.Keys == Members(items)
    }

    /** An empty distribution with sum 0. */
    constructor ()
      ensures Valid() && items == [] && counts == map[] && sum == 0
      ensures sum == Total(items, counts)
    {
      items := [];
      counts := map[];
      sum := 0;
    }

    /** Counts one more occurrence of `item`: an existing count goes up by 1,
        a new item is appended last with count 1; the sum goes up by 1. */
    method AddItem(item: string)
      requires Valid()
      modifies this
      ensures Valid()
      ensures items == old(items) + (if item in old(counts) then [] else [item])
      ensures counts == old(counts)[item := Count(old(counts), item) + 1]
      ensures sum == old(sum) + 1
      ensures Total(items, counts) == old(Total(items, counts)) + 1
    {
      AddCount(item, 1);
    }

    /** Takes one occurrence of `item` off: the count goes down by 1 and the
        item is removed when its count reaches 0; an absent item changes
        nothing. The sum is left as it is. */
    method RemoveItem(item: string)
      requires Valid()
      modifies this
      ensures Valid()
      ensures item !in old(counts) ==> items == old(items) && counts == old(counts)
      ensures item in old(counts) && old(counts)[item] != 1 ==>
        items == old(items) && counts == old(counts)[item := old(counts)[item] - 1]
      ensures item in old(counts) && old(counts)[item] == 1 ==>
        items == Drop(old(items), {item}) && counts == old(counts) - {item}
      ensures sum == old(sum)
      ensures item in old(counts) ==> Total(items, counts) == old(Total(items, counts)) - 1
    {
      MembersMeaning(items);
      if item in counts {
        var v := counts[item] - 1;
        if v == 0 {
          TotalDrop(items, counts, item);
          DropDistinct(items, {item});
          MembersDrop(items, {item});
          items := Drop(items, {item});
          counts := counts - {item};
        } else {
          TotalUpdate(items, counts, item, v);
          counts := counts[item := v];
        }
      }
    }

    /** One step of addDistribution: adds `v` to the count of `e` (appending
        `e` last when it has no entry) and adds `v` to the sum. */
    method AddCount(e: string, v: int)
      requires Valid()
      modifies this
      ensures Valid()
      ensures items == old(items) + (if e in old(counts) then [] else [e])
      ensures counts == old(counts)[e := Count(old(counts), e) + v]
      ensures sum == old(sum) + v
      ensures Total(items, counts) == old(Total(items, counts)) + v
    {
      MembersMeaning(items);
      if e in counts {
        TotalUpdate(items, counts, e, counts[e] + v);
        counts := counts[e := counts[e] + v];
      } else {
        TotalUnlisted(items, counts, e, v);
        TotalAppend(items, counts[e := v], e);
        MembersAppend(items, e);
        items := items + [e];
        counts := counts[e := v];
      }
      sum := sum + v;
    }

    /** One step of removeDistribution: takes `v` off the count of `e`,
        removing `e` when the count becomes exactly 0, and takes `v` off the sum. */
    method TakeCount(e: string, v: int)
      requires Valid() && e in counts
      modifies this
      ensures Valid()
      ensures old(counts)[e] != v ==> items == old(items) && counts == old(counts)[e := old(counts)[e] - v]
      ensures old(counts)[e] == v ==> items == Drop(old(items), {e}) && counts == old(counts) - {e}
      ensures sum == old(sum) - v
      ensures Total(items, counts) == old(Total(items, counts)) - v
    {
      MembersMeaning(items);
      if counts[e] - v != 0 {
        TotalUpdate(items, counts, e, counts[e] - v);
        counts := counts[e := counts[e] - v];
      } else {
        TotalDrop(items, counts, e);
        DropDistinct(items, {e});
        MembersDrop(items, {e});
        items := Drop(items, {e});
        counts := counts - {e};
      }
      sum := sum - v;
    }

    /** The step of addDistribution for the item at position `i` of `ks`:
        the state built from the first `i` items of `ks` becomes the state
        built from the first `i + 1`. */
    method AddEntryAt(ks: seq<string>, dc: map<string, int>, i: nat, ghost k0: seq<string>, ghost c0: map<string, int>)
      requires Valid() && Distinct(ks) && dc.Keys == Members(ks) && i < |ks|
      requires items == k0 + Drop(ks[..i], c0.Keys) && counts == AddCounts(c0, ks[..i], dc)
      modifies this
      ensures Valid()
      ensures items == k0 + Drop(ks[..i + 1], c0.Keys) && counts == AddCounts(c0, ks[..i + 1], dc)
      ensures sum == old(sum) + Count(dc, ks[i])
      ensures Total(items, counts) == old(Total(items, counts)) + Count(dc, ks[i])
    {
      var e := ks[i];
      MemberAt(ks, i);
      AddStep(ks, i, c0.Keys);
      DistinctPrefix(ks, i);
      AddCountsMeaning(c0, ks[..i], dc, e);
      AddCountsStep(c0, ks, i, dc);
      ghost var dropped := Drop(ks[..i], c0.Keys);
      ghost var tail := if e in c0.Keys then [] else [e];
      assert k0 + dropped + tail == k0 + (dropped + tail);
      assert dc[e] == Count(dc, e);
      AddCount(e, dc[e]);
    }

    /** Adds every count of `d`, in `d`'s order: existing items get the sum of
        both counts, new items are appended with `d`'s count, and the sum goes
        up by the total of `d`'s counts. */
    method AddDistribution(d: DiscreteDistribution)
      requires Valid() && d.Valid() && d != this
      modifies this
      ensures Valid()
      ensures items == old(items) + Drop(d.items, old(counts).Keys)
      ensures counts == AddCounts(old(counts), d.items, d.counts)
      ensures sum == old(sum) + Total(d.items, d.counts)
      ensures Total(items, counts) == old(Total(items, counts)) + Total(d.items, d.counts)
    {
      ghost var k0, c0, t0, s0 := items, counts, Total(items, counts), sum;
      var dItems, dCounts := d.items, d.counts;
      assert dItems[..0] == [];
      for i := 0 to |dItems|
        invariant Valid()
        invariant items == k0 + Drop(dItems[..i], c0.Keys) && counts == AddCounts(c0, dItems[..i], dCounts)
        invariant sum == s0 + Total(dItems[..i], dCounts)
        invariant Total(items, counts) == t0 + Total(dItems[..i], dCounts)
      {
        AddEntryAt(dItems, dCounts, i, k0, c0);
        TotalPrefix(dItems, i, dCounts);
      }
      assert dItems[..|dItems|] == dItems;
    }

    /** The step of removeDistribution for the item at position `i` of `ks`,
        all earlier items having had entries: KeyError when the item has no
        entry, and otherwise the state built from the first `i` items of `ks`
        becomes the state built from the first `i + 1`. */
    method TakeEntryAt(ks: seq<string>, dc: map<string, int>, i: nat, ghost k0: seq<string>, ghost c0: map<string, int>)
      returns (o: Outcome)
      requires Valid() && Distinct(ks) && dc.Keys == Members(ks) && i < |ks|
      requires forall j :: 0 <= j < i ==> ks[j] in c0
      requires items == Drop(k0, Emptied(ks[..i], c0, dc)) && counts == TakeCounts(c0, ks[..i], dc)
      modifies this
      ensures Valid()
      ensures o == Pass <==> ks[i] in c0
      ensures o != Pass ==> o == Fail(KeyError) && items == old(items) && counts == old(counts) && sum == old(sum)
      ensures o == Pass ==>
        && items == Drop(k0, Emptied(ks[..i + 1], c0, dc)) && counts == TakeCounts(c0, ks[..i + 1], dc)
        && sum == old(sum) - Count(dc, ks[i])
        && Total(items, counts) == old(Total(items, counts)) - Count(dc, ks[i])
    {
      var e := ks[i];
      MemberAt(ks, i);
      RemoveStep(ks, i);
      DistinctPrefix(ks, i);
      TakeCountsMeaning(c0, ks[..i], dc, e);
      if e !in counts {
        assert e !in Emptied(ks[..i], c0, dc);
        return Fail(KeyError);
      }
      ghost var gone, m := Emptied(ks[..i], c0, dc), counts;
      EmptiedStep(ks[..i], c0, dc, e);
      TakeCountsStep(c0, ks, i, dc);
      assert m[e] == Count(m, e) == Count(c0, e);
      assert dc[e] == Count(dc, e);
      TakeCount(e, dc[e]);
      if m[e] != dc[e] {
        assert Emptied(ks[..i + 1], c0, dc) == gone;
      } else {
        assert Emptied(ks[..i + 1], c0, dc) == gone + {e};
        DropTwice(k0, gone, e);
      }
      return Pass;
    }

    /** Takes every count of `d` off, in `d`'s order: an item whose count
        becomes exactly 0 is removed, and the sum goes down by each count taken
        off. KeyError at the first item of `d` this distribution does not hold,
        with the items before it already taken off. */
    method RemoveDistribution(d: DiscreteDistribution) returns (o: Outcome)
      requires Valid() && d.Valid() && d != this
      modifies this
      ensures Valid()
      ensures var p := FirstMissing(d.items, old(counts).Keys);
        var done := d.items[..p];
        && o == (if p == |d.items| then Pass else Fail(KeyError))
        && items == Drop(old(items), Emptied(done, old(counts), d.counts))
        && counts == TakeCounts(old(counts), done, d.counts)
        && sum == old(sum) - Total(done, d.counts)
        && Total(items, counts) == old(Total(items, counts)) - Total(done, d.counts)
    {
      ghost var k0, c0, t0, s0 := items, counts, Total(items, counts), sum;
      var dItems, dCounts := d.items, d.counts;
      DropNothing(k0, {});
      assert dItems[..0] == [];
      assert Emptied(dItems[..0], c0, dCounts) == {};
      for i := 0 to |dItems|
        invariant Valid()
        invariant i <= FirstMissing(dItems, c0.Keys)
        invariant items == Drop(k0, Emptied(dItems[..i], c0, dCounts)) && counts == TakeCounts(c0, dItems[..i], dCounts)
        invariant sum == s0 - Total(dItems[..i], dCounts)
        invariant Total(items, counts) == t0 - Total(dItems[..i], dCounts)
      {
        o := TakeEntryAt(dItems, dCounts, i, k0, c0);
        if o != Pass {
          FirstMissingAt(dItems, c0.Keys, i);
          assert d.items == dItems && d.counts == dCounts;
          return;
        }
        FirstMissingPast(dItems, c0.Keys, i);
        TotalPrefix(dItems, i, dCounts);
      }
      assert dItems[..|dItems|] == dItems;
      FirstMissingAt(dItems, c0.Keys, |dItems|);
      assert d.items == dItems && d.counts == dCounts;
      return Pass;
    }

    function GetSum(): int
      reads this
    {
      sum
    }

    /** The position of `item` in insertion order; ValueError when it is absent. */
    function GetIndex(item: string): (r: Result<nat>)
      reads this
      requires Valid()
      ensures r.Ok? <==> item in counts
      ensures r.Ok? ==> r.value < |items| && items[r.value] == item
      ensures r.Err? ==> r.error == ValueError
    {
      MembersMeaning(items);
      var p := Position(items, item);
      if p < |items| then Ok(p) else Err(ValueError)
    }

    /** Whether `item` has an entry. */
    function ContainsItem(item: string): (r: bool)
      reads this
      requires Valid()
      ensures r <==> item in items
    {
      MembersMeaning(items);
      item in counts
    }

    /** The item at a position in insertion order, a negative position counting
        from the end; IndexError when out of range. */
    function GetItem(index: int): (r: Result<string>)
      reads this
      requires Valid()
      ensures r.Ok? <==> -|items| <= index < |items|
      ensures r.Ok? ==> r.value in counts
      ensures 0 <= index < |items| ==> r == Ok(items[index])
      ensures r.Err? ==> r.error == IndexError
    {
      MembersMeaning(items);
      match VectorSpec.ListIndex(index, |items|)
      case None => Err(IndexError)
      case Some(p) => Ok(items[p])
    }

    /** The count at a position of the values in insertion order; IndexError when out of range. */
    function GetValue(index: int): (r: Result<int>)
      reads this
      requires Valid()
      ensures r.Ok? <==> GetItem(index).Ok?
      ensures r.Ok? ==> r.value == counts[GetItem(index).value]
      ensures r.Err? ==> r.error == IndexError
    {
      MembersMeaning(items);
      var values := seq(|items|, i requires 0 <= i < |items| reads this => Count(counts, items[i]));
      match VectorSpec.ListIndex(index, |values|)
      case None => Err(IndexError)
      case Some(p) => Ok(values[p])
    }

    /** The count of `item`; KeyError when it has no entry. */
    function GetCount(item: string): (r: Result<int>)
      reads this
      ensures r.Ok? <==> item in counts
      ensures r.Ok? ==> r.value == Count(counts, item)
      ensures r.Err? ==> r.error == KeyError
    {
      if item in counts then Ok(counts[item]) else Err(KeyError)
    }

    /** The first item in insertion order with the largest count, or "" when
        no count exceeds -1 (in particular when the distribution is empty). */
    method GetMaxItem() returns (r: string)
      requires Valid()
      ensures (forall j :: 0 <= j < |items| ==> Count(counts, items[j]) <= -1) ==> r == ""
      ensures (exists j :: 0 <= j < |items| && Count(counts, items[j]) > -1) ==>
        exists i :: IsFirstMax(items, counts, i) && r == items[i]
    {
      var maxValue := -1;
      r := "";
      ghost var at := -1;
      MembersMeaning(items);
      for i := 0 to |items|
        invariant at == -1 ==> r == "" && maxValue == -1 && forall j :: 0 <= j < i ==> Count(counts, items[j]) <= -1
        invariant at != -1 ==> 0 <= at < i && r == items[at] && maxValue == Count(counts, items[at]) > -1
        invariant at != -1 ==> IsFirstMax(items[..i], counts, at)
      {
        var item := items[i];
        if counts[item] > maxValue {
          maxValue := counts[item];
          r := item;
          at := i;
        }
      }
      assert items[..|items|] == items;
    }

    /** The first item of `includeTheseOnly` with the largest count, an item
        without an entry counting 0, or "" when no count exceeds -1. */
    method GetMaxItemIncludeTheseOnly(includeTheseOnly: seq<string>) returns (r: string)
      ensures (forall j :: 0 <= j < |includeTheseOnly| ==> Count(counts, includeTheseOnly[j]) <= -1) ==> r == ""
      ensures (exists j :: 0 <= j < |includeTheseOnly| && Count(counts, includeTheseOnly[j]) > -1) ==>
        exists i :: IsFirstMax(includeTheseOnly, counts, i) && r == includeTheseOnly[i]
    {
      var maxValue := -1;
      r := "";
      ghost var at := -1;
      for i := 0 to |includeTheseOnly|
        invariant at == -1 ==> r == "" && maxValue == -1 && forall j :: 0 <= j < i ==> Count(counts, includeTheseOnly[j]) <= -1
        invariant at != -1 ==> 0 <= at < i && r == includeTheseOnly[at] && maxValue == Count(counts, includeTheseOnly[at]) > -1
        invariant at != -1 ==> IsFirstMax(includeTheseOnly[..i], counts, at)
      {
        var item := includeTheseOnly[i];
        var frequency := 0;
        if item in counts {
          frequency := counts[item];
        }
        if frequency > maxValue {
          maxValue := frequency;
          r := item;
          at := i;
        }
      }
      assert includeTheseOnly[..|includeTheseOnly|] == includeTheseOnly;
    }

    /** The relative frequency of `item`: its count over the running sum, 0.0
        for an item without an entry; ZeroDivisionError when a stored item
        meets a sum of 0. The source divides by the builtin `sum` function
        here; this is the evidently intended division by the running sum
        (ProbabilityAsWritten models the code as written). */
    function GetProbability(item: string): (r: Result<real>)
      reads this
      ensures item !in counts ==> r == Ok(0.0)
      ensures r.Err? <==> item in counts && sum == 0
      ensures r.Err? ==> r.error == ZeroDivisionError
      ensures r.Ok? && item in counts ==> r.value * sum as real == counts[item] as real
    {
      if item !in counts then Ok(0.0)
      else if sum == 0 then Err(ZeroDivisionError)
      else Ok(counts[item] as real / sum as real)
    }

    /** The Laplace-smoothed probability of `item`: (count + 1) over
        (sum + number of items + 1), with count 0 for an item without an
        entry; ZeroDivisionError when that denominator is 0. */
    function LaplaceProbability(item: string): (r: Result<real>)
      reads this
      ensures r.Err? <==> sum + |items| + 1 == 0
      ensures r.Err? ==> r.error == ZeroDivisionError
      ensures r.Ok? ==> r.value * (sum + |items| + 1) as real == (Count(counts, item) + 1) as real
    {
      var den := sum + |items| + 1;
      if den == 0 then Err(ZeroDivisionError)
      else if item in counts then Ok((counts[item] + 1) as real / den as real)
      else Ok(1.0 / den as real)
    }

    /** The entropy of the relative frequencies, -p * log2(p) summed over the
        items in order, with the logarithm a parameter; ZeroDivisionError when
        there is an item and the sum is 0, ValueError at the first item whose
        relative frequency is not positive. As for GetProbability, the source
        divides by the builtin `sum`; EntropyAsWritten models that. */
    method Entropy(log2: real -> real) returns (r: Result<real>)
      ensures sum == 0 ==> r == if |items| == 0 then Ok(0.0) else Err(ZeroDivisionError)
      ensures sum != 0 && EntropyDefined(items, counts, sum as real) ==> r == Ok(EntropySum(items, counts, sum as real, log2))
      ensures sum != 0 && !EntropyDefined(items, counts, sum as real) ==> r == Err(ValueError)
    {
      var total := 0.0;
      for i := 0 to |items|
        invariant sum != 0 ==> EntropyDefined(items[..i], counts, sum as real)
        invariant sum != 0 ==> total == EntropySum(items[..i], counts, sum as real, log2)
        invariant sum == 0 ==> i == 0 && total == 0.0
      {
        if sum == 0 {
          return Err(ZeroDivisionError);
        }
        var probability := Count(counts, items[i]) as real / sum as real;
        EntropyStep(items, i, counts, sum as real, log2);
        if probability <= 0.0 {
          if EntropyDefined(items, counts, sum as real) {
            EntropyDefinedPrefix(items, i + 1, counts, sum as real);
          }
          return Err(ValueError);
        }
        total := total + -probability * log2(probability);
      }
      assert items[..|items|] == items;
      return Ok(total);
    }
  }

  /** The total over one more item of a prefix. */
  lemma TotalPrefix(ks: seq<string>, i: nat, c: map<string, int>)
    requires i < |ks|
    ensures Total(ks[..i + 1], c) == Total(ks[..i], c) + Count(c, ks[i])
  {
    assert ks[..i + 1] == ks[..i] + [ks[i]];
    TotalAppend(ks[..i], c, ks[i]);
  }

  /** Extending a prefix of a distinct sequence by its next item, which the prefix does not hold. */
  lemma RemoveStep(ks: seq<string>, i: nat)
    requires Distinct(ks) && i < |ks|
    ensures ks[..i + 1] == ks[..i] + [ks[i]]
    ensures ks[i] !in ks[..i]
  {
    assert ks[..i + 1] == ks[..i] + [ks[i]];
    DistinctIndices(ks);
  }

  /** As RemoveStep, and dropping `present` from the longer prefix appends the next item when it is new. */
  lemma AddStep(ks: seq<string>, i: nat, present: set<string>)
    requires Distinct(ks) && i < |ks|
    ensures ks[..i + 1] == ks[..i] + [ks[i]]
    ensures ks[i] !in ks[..i]
    ensures Drop(ks[..i + 1], present) == Drop(ks[..i], present) + (if ks[i] in present then [] else [ks[i]])
  {
    RemoveStep(ks, i);
    assert (ks[..i + 1])[..i] == ks[..i];
  }

  lemma MemberAt(ks: seq<string>, i: nat)
    requires i < |ks|
    ensures ks[i] in Members(ks)
  {
    MembersMeaning(ks);
  }

  /** A position before which every item is present and at which the item is missing is the first missing one. */
  lemma {:induction false} FirstMissingAt(ks: seq<string>, present: set<string>, p: nat)
    requires p <= |ks|
    requires forall j :: 0 <= j < p ==> ks[j] in present
    requires p < |ks| ==> ks[p] !in present
    ensures FirstMissing(ks, present) == p
  {
    if |ks| > 0 && p > 0 {
      FirstMissingAt(ks[1..], present, p - 1);
    }
  }

  /** A present item at a position no later than the first missing one moves that bound past it. */
  lemma FirstMissingPast(ks: seq<string>, present: set<string>, i: nat)
    requires i < |ks| && i <= FirstMissing(ks, present) && ks[i] in present
    ensures i + 1 <= FirstMissing(ks, present)
  {
  }

  /** The Laplace-smoothed probabilities of the items of `ks`, summed from the left. */
  ghost function LaplaceMass(d: DiscreteDistribution, ks: seq<string>): real
    reads d
    requires d.sum + |d.items| + 1 != 0
  {
    if |ks| == 0 then 0.0 else LaplaceMass(d, ks[..|ks| - 1]) + d.LaplaceProbability(ks[|ks| - 1]).value
  }

  lemma {:induction false} LaplaceMassSmoothed(d: DiscreteDistribution, ks: seq<string>)
    requires d.sum + |d.items| + 1 != 0
    ensures LaplaceMass(d, ks) == SmoothedMass(ks, d.counts, (d.sum + |d.items| + 1) as real)
  {
    if |ks| > 0 {
      LaplaceMassSmoothed(d, ks[..|ks| - 1]);
    }
  }

  /** While the running sum equals the total of the counts, the smoothed
      probabilities of the stored items and that of one unseen item add up to 1. */
  lemma LaplaceSumsToOneFor(d: DiscreteDistribution, unseen: string)
    requires d.sum == Total(d.items, d.counts) && d.sum + |d.items| + 1 != 0
    requires unseen !in d.counts
    ensures LaplaceMass(d, d.items) + d.LaplaceProbability(unseen).value == 1.0
  {
    LaplaceMassSmoothed(d, d.items);
    LaplaceSumsToOne(d.items, d.counts, d.sum);
  }

  /** The relative frequencies of the items of `ks`, summed from the left. */
  ghost function ProbabilityMassOf(d: DiscreteDistribution, ks: seq<string>): real
    reads d
    requires d.sum != 0
  {
    if |ks| == 0 then 0.0
    else
      var last := ks[|ks| - 1];
      ProbabilityMassOf(d, ks[..|ks| - 1]) + (if last in d.counts then d.GetProbability(last).value else 0.0)
  }

  lemma {:induction false} ProbabilityMassOfIsMass(d: DiscreteDistribution, ks: seq<string>)
    requires d.sum != 0
    ensures ProbabilityMassOf(d, ks) == ProbabilityMass(ks, d.counts, d.sum as real)
  {
    if |ks| > 0 {
      ProbabilityMassOfIsMass(d, ks[..|ks| - 1]);
    }
  }

  /** While the running sum equals the total of the counts and is not 0, the
      probabilities of the stored items add up to 1. */
  lemma ProbabilitiesSumToOneFor(d: DiscreteDistribution)
    requires d.sum == Total(d.items, d.counts) && d.sum != 0
    ensures ProbabilityMassOf(d, d.items) == 1.0
  {
    ProbabilityMassOfIsMass(d, d.items);
    ProbabilitiesSumToOne(d.items, d.counts, d.sum);
  }

  /** With positive counts whose total is the running sum, and a logarithm
      not positive on (0, 1], the entropy is defined and not negative. */
  lemma EntropyNonNegativeFor(d: DiscreteDistribution, log2: real -> real)
    requires d.sum == Total(d.items, d.counts) && |d.items| > 0
    requires forall j :: 0 <= j < |d.items| ==> Count(d.counts, d.items[j]) > 0
    requires forall x :: 0.0 < x <= 1.0 ==> log2(x) <= 0.0
    ensures d.sum > 0
    ensures EntropyDefined(d.items, d.counts, d.sum as real)
    ensures EntropySum(d.items, d.counts, d.sum as real, log2) >= 0.0
  {
    CountAtMostTotal(d.items, d.counts, 0);
    forall i | 0 <= i < |d.items|
      ensures Count(d.counts, d.items[i]) as real <= d.sum as real
    {
      CountAtMostTotal(d.items, d.counts, i);
    }
    EntropyNonNegative(d.items, d.counts, d.sum as real, log2);
  }

  /** getIndex and getItem are inverse: the item at an item's index is that
      item, and the index of the item at a position is that position. */
  lemma IndexItemInverse(d: DiscreteDistribution, x: string, i: int)
    requires d.Valid()
    ensures x in d.counts ==> d.GetIndex(x).Ok? && d.GetItem(d.GetIndex(x).value) == Ok(x)
    ensures 0 <= i < |d.items| ==> d.GetItem(i).Ok? && d.GetIndex(d.GetItem(i).value) == Ok(i)
  {
    MembersMeaning(d.items);
    if 0 <= i < |d.items| {
      DistinctIndices(d.items);
      var p := Position(d.items, d.items[i]);
      assert p == i;
    }
  }
}
