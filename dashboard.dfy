/** The manager's screen: the stored interactions are filtered to a range
    of days and summarised into archetype counts, the application rate, a
    row per named seller, the alert table and the most frequent
    objections. pandas' `value_counts` and `groupby(...).size()` are
    counts, given here as multisets or as `Count`. All arithmetic is exact. */
module Dashboard {
  import opened Interactions
  import opened Text
  import opened Wrappers

  // ---------------------------------------------------------------------
  // Counting, filtering and projecting sequences

  /** How many elements of `xs` equal `v`. */
  function Count<T(==)>(xs: seq<T>, v: T): nat
    decreases |xs|
  {
    if xs == [] then 0 else (if xs[0] == v then 1 else 0) + Count(xs[1..], v)
  }

  /** A count is at most the length, and zero exactly for an absent value. */
  lemma {:induction false} CountBounds<T(!new)>(xs: seq<T>, v: T)
    ensures Count(xs, v) <= |xs|
    ensures Count(xs, v) == 0 <==> v !in xs
    decreases |xs|
  {
    if xs != [] {
      CountBounds(xs[1..], v);
      assert forall x :: x in xs <==> x == xs[0] || x in xs[1..];
    }
  }

  /** `Count` is the multiplicity of the multiset of `xs`. */
  lemma {:induction false} CountIsMultiplicity<T(!new)>(xs: seq<T>, v: T)
    ensures multiset(xs)[v] == Count(xs, v)
    decreases |xs|
  {
    if xs != [] {
      CountIsMultiplicity(xs[1..], v);
      assert xs == [xs[0]] + xs[1..];
    }
  }

  /** Two different values are counted among different elements. */
  lemma {:induction false} CountTwoValues<T(!new)>(xs: seq<T>, v: T, w: T)
    requires v != w
    ensures Count(xs, v) + Count(xs, w) <= |xs|
    decreases |xs|
  {
    if xs != [] {
      CountTwoValues(xs[1..], v, w);
    }
  }

  /** A value accounts for every element exactly when all equal it. */
  lemma {:induction false} CountAll<T(!new)>(xs: seq<T>, v: T)
    ensures Count(xs, v) == |xs| <==> forall i :: 0 <= i < |xs| ==> xs[i] == v
    decreases |xs|
  {
    if xs != [] {
      CountAll(xs[1..], v);
      CountBounds(xs[1..], v);
      assert forall i :: 1 <= i < |xs| ==> xs[i] == xs[1..][i - 1];
    }
  }

  /** `value_counts()`: each value with the number of its occurrences;
      the counts add up to the number of elements. */
  function ValueCounts<T(!new)>(xs: seq<T>): (m: multiset<T>)
    ensures |m| == |xs|
    ensures forall v :: m[v] == Count(xs, v)
  {
    forall v ensures multiset(xs)[v] == Count(xs, v) {
      CountIsMultiplicity(xs, v);
    }
    multiset(xs)
  }

  /** The elements satisfying `p`, in their order (a boolean mask). */
  function Filter<T(!new)>(xs: seq<T>, p: T -> bool): (r: seq<T>)
    ensures |r| <= |xs|
    ensures forall x :: x in r <==> x in xs && p(x)
    decreases |xs|
  {
    if xs == [] then [] else (if p(xs[0]) then [xs[0]] else []) + Filter(xs[1..], p)
  }

  /** `b` keeps the elements of `a` in their order, possibly dropping some. */
  predicate IsSubsequence<T(==)>(a: seq<T>, b: seq<T>)
    decreases |b|
  {
    a == [] || (b != [] && ((a[0] == b[0] && IsSubsequence(a[1..], b[1..])) || IsSubsequence(a, b[1..])))
  }

  lemma {:induction false} FilterIsSubsequence<T(!new)>(xs: seq<T>, p: T -> bool)
    ensures IsSubsequence(Filter(xs, p), xs)
    decreases |xs|
  {
    if xs != [] {
      FilterIsSubsequence(xs[1..], p);
      var r := Filter(xs, p);
      if p(xs[0]) {
        assert r[0] == xs[0] && r[1..] == Filter(xs[1..], p);
      } else {
        assert r == Filter(xs[1..], p);
      }
    }
  }

  /** Filtering a concatenation filters each part: order is preserved. */
  lemma {:induction false} FilterAppend<T(!new)>(a: seq<T>, b: seq<T>, p: T -> bool)
    ensures Filter(a + b, p) == Filter(a, p) + Filter(b, p)
    decreases |a|
  {
    if a != [] {
      assert (a + b)[1..] == a[1..] + b;
      FilterAppend(a[1..], b, p);
    } else {
      assert a + b == b;
    }
  }

  /** A kept value is kept as often as it occurs; other values vanish. */
  lemma {:induction false} FilterMultiplicity<T(!new)>(xs: seq<T>, p: T -> bool, x: T)
    ensures multiset(Filter(xs, p))[x] == if p(x) then multiset(xs)[x] else 0
    decreases |xs|
  {
    if xs != [] {
      FilterMultiplicity(xs[1..], p, x);
      assert xs == [xs[0]] + xs[1..];
    }
  }

  /** A filter that implies another absorbs it. */
  lemma {:induction false} FilterAbsorbs<T(!new)>(xs: seq<T>, p: T -> bool, q: T -> bool)
    requires forall x :: q(x) ==> p(x)
    ensures Filter(Filter(xs, p), q) == Filter(xs, q)
    decreases |xs|
  {
    if xs != [] {
      FilterAbsorbs(xs[1..], p, q);
      FilterCons(xs, p);
      FilterCons(xs, q);
      if p(xs[0]) {
        FilterCons(Filter(xs, p), q);
      }
    }
  }

  lemma FilterCons<T(!new)>(xs: seq<T>, p: T -> bool)
    requires xs != []
    ensures Filter(xs, p) == if p(xs[0]) then [xs[0]] + Filter(xs[1..], p) else Filter(xs[1..], p)
    ensures p(xs[0]) ==> Filter(xs, p)[0] == xs[0] && Filter(xs, p)[1..] == Filter(xs[1..], p)
  {
    if p(xs[0]) {
      assert ([xs[0]] + Filter(xs[1..], p))[1..] == Filter(xs[1..], p);
    }
  }

  /** The filter is empty exactly when no element satisfies `p`. */
  lemma {:induction false} FilterEmpty<T(!new)>(xs: seq<T>, p: T -> bool)
    ensures Filter(xs, p) == [] <==> forall i :: 0 <= i < |xs| ==> !p(xs[i])
    decreases |xs|
  {
    if xs != [] {
      FilterEmpty(xs[1..], p);
      assert forall i :: 1 <= i < |xs| ==> xs[i] == xs[1..][i - 1];
    }
  }

  /** A filter every element passes keeps everything. */
  lemma {:induction false} FilterAll<T(!new)>(xs: seq<T>, p: T -> bool)
    requires forall i :: 0 <= i < |xs| ==> p(xs[i])
    ensures Filter(xs, p) == xs
    decreases |xs|
  {
    if xs != [] {
      FilterAll(xs[1..], p);
      assert xs == [xs[0]] + xs[1..];
    }
  }

  /** A column: `f` applied to every element. */
  function Project<T(!new), U>(xs: seq<T>, f: T -> U): (r: seq<U>)
    ensures |r| == |xs|
    ensures forall i :: 0 <= i < |xs| ==> r[i] == f(xs[i])
    decreases |xs|
  {
    if xs == [] then [] else [f(xs[0])] + Project(xs[1..], f)
  }

  /** The size of a group is the count of its key in the key column. */
  lemma {:induction false} GroupSize<T(!new), U>(xs: seq<T>, f: T -> U, y: U, p: T -> bool)
    requires forall x :: p(x) <==> f(x) == y
    ensures |Filter(xs, p)| == Count(Project(xs, f), y)
    decreases |xs|
  {
    if xs != [] {
      GroupSize(xs[1..], f, y, p);
      assert Project(xs, f)[1..] == Project(xs[1..], f);
    }
  }

  /** Filtering keeps every element whose column value is `y` when `p`
      holds of all of them, and drops them all when it holds of none. */
  lemma {:induction false} CountAfterFilter<T(!new), U>(xs: seq<T>, f: T -> U, y: U, p: T -> bool)
    ensures (forall x :: f(x) == y ==> p(x)) ==> Count(Project(Filter(xs, p), f), y) == Count(Project(xs, f), y)
    ensures (forall x :: f(x) == y ==> !p(x)) ==> Count(Project(Filter(xs, p), f), y) == 0
    decreases |xs|
  {
    if xs != [] {
      CountAfterFilter(xs[1..], f, y, p);
      var r := Filter(xs[1..], p);
      assert Project(xs, f)[1..] == Project(xs[1..], f);
      if p(xs[0]) {
        assert Filter(xs, p) == [xs[0]] + r;
        assert Project(Filter(xs, p), f)[1..] == Project(r, f);
      } else {
        assert Filter(xs, p) == r;
      }
    }
  }

  // ---------------------------------------------------------------------
  // Columns of the interaction table

  function ProfileOf(r: Interaction): string { r.profile }
  function AppliedOf(r: Interaction): string { r.applied }
  function SellerOf(r: Interaction): string { r.sellerName }
  function InputOf(r: Interaction): string { r.input }
  function SellerAndProfile(r: Interaction): (string, string) { (r.sellerName, r.profile) }

  // ---------------------------------------------------------------------
  // The date filter

  predicate InRange(r: Interaction, start: int, end: int) {
    start <= r.createdAt.day <= end
  }

  /** The records whose calendar day lies between `start` and `end`,
      both included. */
  function FilterByDate(rs: seq<Interaction>, start: int, end: int): (r: seq<Interaction>)
    ensures |r| <= |rs|
    ensures forall x :: x in r <==> x in rs && start <= x.createdAt.day <= end
  {
    Filter(rs, x => InRange(x, start, end))
  }

  /** The filter keeps each record in range as many times as it is stored,
      drops every other record, and keeps the stored order. */
  lemma FilterByDateExact(rs: seq<Interaction>, start: int, end: int)
    ensures forall x :: multiset(FilterByDate(rs, start, end))[x]
                        == if start <= x.createdAt.day <= end then multiset(rs)[x] else 0
    ensures IsSubsequence(FilterByDate(rs, start, end), rs)
  {
    forall x ensures multiset(FilterByDate(rs, start, end))[x]
                     == if start <= x.createdAt.day <= end then multiset(rs)[x] else 0 {
      FilterMultiplicity(rs, x => InRange(x, start, end), x);
    }
    FilterIsSubsequence(rs, x => InRange(x, start, end));
  }

  /** Filtering the records of two periods apart and concatenating gives
      the filter of the concatenation. */
  lemma FilterByDateAppend(a: seq<Interaction>, b: seq<Interaction>, start: int, end: int)
    ensures FilterByDate(a + b, start, end) == FilterByDate(a, start, end) + FilterByDate(b, start, end)
  {
    FilterAppend(a, b, x => InRange(x, start, end));
  }

  // ---------------------------------------------------------------------
  // Archetype counts and the application rate

  /** `value_counts` of 'perfil_ia': per archetype, how many records carry
      it. */
  function ProfileCounts(rs: seq<Interaction>): (m: multiset<string>)
    ensures |m| == |rs|
    ensures forall a :: m[a] == Count(Project(rs, ProfileOf), a)
  {
    ValueCounts(Project(rs, ProfileOf))
  }

  /** `value_counts` of 'aplicou_estrategia'. */
  function AppliedCounts(rs: seq<Interaction>): (m: multiset<string>)
    ensures |m| == |rs|
    ensures forall v :: m[v] == Count(Project(rs, AppliedOf), v)
  {
    ValueCounts(Project(rs, AppliedOf))
  }

  /** The percentage of "Sim" among the records, shown only when there are
      records and "Sim" occurs among them; otherwise there is none. */
  function ApplicationRate(rs: seq<Interaction>): (rate: Option<real>)
    ensures rate.Some? <==> exists i :: 0 <= i < |rs| && rs[i].applied == Yes
    ensures rate.Some? ==> 0.0 < rate.value <= 100.0
    ensures rate.Some? ==> rate.value == (Count(Project(rs, AppliedOf), Yes) as real) / (|rs| as real) * 100.0
    ensures rate.Some? ==> (rate.value == 100.0 <==> forall i :: 0 <= i < |rs| ==> rs[i].applied == Yes)
  {
    var counts := AppliedCounts(rs);
    var total := |counts|;
    var yes := Count(Project(rs, AppliedOf), Yes);
    assert Yes in counts <==> exists i :: 0 <= i < |rs| && rs[i].applied == Yes by {
      InColumn(rs, AppliedOf, Yes);
    }
    if total > 0 && Yes in counts then
      var p := Percent(counts[Yes], total);
      assert p == 100.0 <==> forall i :: 0 <= i < |rs| ==> rs[i].applied == Yes by {
        CountAll(Project(rs, AppliedOf), Yes);
      }
      Some(p)
    else
      None
  }

  /** `part / total * 100`, exactly. */
  function Percent(part: nat, total: nat): (p: real)
    requires 0 < total
    ensures part <= total ==> 0.0 <= p <= 100.0
    ensures p == 0.0 <==> part == 0
    ensures p == 100.0 <==> part == total
  {
    var q := part as real / total as real;
    assert q * (total as real) == part as real;
    assert part <= total ==> q <= 1.0;
    q * 100.0
  }

  /** `v` occurs in a column exactly when some record has that value. */
  lemma InColumn<U>(rs: seq<Interaction>, f: Interaction -> U, v: U)
    ensures v in Project(rs, f) <==> exists i :: 0 <= i < |rs| && f(rs[i]) == v
  {
    var col := Project(rs, f);
    if v in col {
      var i :| 0 <= i < |col| && col[i] == v;
      assert f(rs[i]) == v;
    }
  }

  // ---------------------------------------------------------------------
  // Per-seller rollup

  /** A record the per-seller views take: its name is not the
      "Não informado" sentinel (an empty name is a name). */
  predicate IsNamed(r: Interaction) { r.sellerName != NotInformed }

  /** `dados_com_nome`: the records whose name is not the sentinel. */
  function NamedRecords(rs: seq<Interaction>): (named: seq<Interaction>)
    ensures |named| <= |rs|
    ensures forall r :: r in named <==> r in rs && r.sellerName != NotInformed
  {
    Filter(rs, IsNamed)
  }

  /** The group of one seller. */
  function RecordsOf(rs: seq<Interaction>, name: string): (g: seq<Interaction>)
    ensures |g| <= |rs|
    ensures forall r :: r in g <==> r in rs && r.sellerName == name
  {
    Filter(rs, HasName(name))
  }

  function HasName(name: string): Interaction -> bool {
    (r: Interaction) => r.sellerName == name
  }

  /** One row of the seller table. */
  datatype SellerRow = SellerRow(total: nat, applied: nat, notApplied: nat,
                                 percentApplied: real, dominantProfile: string)

  /** `LexLeq`-least of the most frequent values ... see `Mode`. */
  predicate Beats(xs: seq<string>, a: string, b: string) {
    Count(xs, a) > Count(xs, b) || (Count(xs, a) == Count(xs, b) && LexLeq(a, b))
  }

  /** The candidate among `cands` that beats all the others. */
  function BestOf(xs: seq<string>, cands: seq<string>): (r: string)
    requires |cands| > 0
    ensures r in cands
    ensures forall c :: c in cands ==> Beats(xs, r, c)
    decreases |cands|
  {
    if |cands| == 1 then
      LexLeqTotal(cands[0], cands[0]);
      cands[0]
    else
      var b := BestOf(xs, cands[1..]);
      assert forall c :: c in cands ==> c == cands[0] || c in cands[1..];
      if Beats(xs, cands[0], b) then
        forall c | c in cands[1..] ensures Beats(xs, cands[0], c) {
          if Count(xs, cands[0]) == Count(xs, b) && Count(xs, b) == Count(xs, c) {
            LexLeqTransitive(cands[0], b, c);
          }
        }
        LexLeqTotal(cands[0], cands[0]);
        cands[0]
      else
        LexLeqTotal(cands[0], b);
        b
  }

  /** `Series.mode()[0]`: pandas lists the most frequent values in sorted
      order, so the first is the least of them by code point; with no
      values at all the row says "Não definido". */
  function Mode(xs: seq<string>): (r: string)
    ensures xs == [] ==> r == Undefined
    ensures xs != [] ==> r in xs
    ensures xs != [] ==> forall x :: x in xs ==> Count(xs, x) <= Count(xs, r)
    ensures xs != [] ==> forall x :: x in xs && Count(xs, x) == Count(xs, r) ==> LexLeq(r, x)
  {
    if xs == [] then Undefined else BestOf(xs, xs)
  }

  /** The aggregates of one seller's group: its size, the numbers of "Sim"
      and "Não", the share of "Sim" in percent and the dominant archetype. */
  function RowOf(group: seq<Interaction>): (row: SellerRow)
    ensures row.total == |group|
    ensures row.applied == Count(Project(group, AppliedOf), Yes)
    ensures row.notApplied == Count(Project(group, AppliedOf), No)
    ensures row.applied + row.notApplied <= row.total
    ensures 0.0 <= row.percentApplied <= 100.0
    ensures row.total > 0 ==> row.percentApplied == (row.applied as real) / (row.total as real) * 100.0
    ensures row.total == 0 ==> row.percentApplied == 0.0
    ensures group != [] ==> var profiles := Project(group, ProfileOf);
              row.dominantProfile in profiles
              && (forall a :: a in profiles ==> Count(profiles, a) <= Count(profiles, row.dominantProfile))
              && (forall a :: a in profiles && Count(profiles, a) == Count(profiles, row.dominantProfile) ==>
                    LexLeq(row.dominantProfile, a))
    ensures group == [] ==> row.dominantProfile == Undefined
  {
    var applied := Count(Project(group, AppliedOf), Yes);
    var notApplied := Count(Project(group, AppliedOf), No);
    CountTwoValues(Project(group, AppliedOf), Yes, No);
    var percent := if |group| == 0 then 0.0 else Percent(applied, |group|);
    SellerRow(|group|, applied, notApplied, percent, Mode(Project(group, ProfileOf)))
  }

  /** The names the seller table lists. */
  /** The key column of the grouping: one name per named record, in
      stored order, never the sentinel. */
  function SellerNames(rs: seq<Interaction>): (ns: seq<string>)
    ensures |ns| == |NamedRecords(rs)|
    ensures forall i :: 0 <= i < |ns| ==> ns[i] == NamedRecords(rs)[i].sellerName && ns[i] != NotInformed
  {
    Project(NamedRecords(rs), SellerOf)
  }

  /** The seller table: one row per name other than "Não informado"
      (the empty name included), computed from exactly that seller's
      records. */
  function SellerRollup(rs: seq<Interaction>): (m: map<string, SellerRow>)
    ensures forall name :: name in m <==> name != NotInformed && name in Project(rs, SellerOf)
    ensures forall name :: name in m ==> m[name] == RowOf(RecordsOf(rs, name))
    ensures forall name :: name in m ==> m[name].total == Count(Project(rs, SellerOf), name) > 0
  {
    var named := NamedRecords(rs);
    var m := map name | name in SellerNames(rs) :: RowOf(RecordsOf(named, name));
    forall name ensures name in m <==> name != NotInformed && name in Project(rs, SellerOf) {
      NameListed(rs, name);
    }
    forall name | name in m
      ensures m[name] == RowOf(RecordsOf(rs, name))
      ensures m[name].total == Count(Project(rs, SellerOf), name) > 0
    {
      SellerGroup(rs, name);
    }
    m
  }

  /** A listed seller's group is the same whether taken from the named
      records or from all of them, and it is not empty. */
  lemma SellerGroup(rs: seq<Interaction>, name: string)
    requires name in SellerNames(rs)
    ensures RecordsOf(NamedRecords(rs), name) == RecordsOf(rs, name)
    ensures |RecordsOf(rs, name)| == Count(Project(rs, SellerOf), name) > 0
  {
    NameListed(rs, name);
    FilterAbsorbs(rs, IsNamed, HasName(name));
    GroupSize(rs, SellerOf, name, HasName(name));
    CountBounds(Project(rs, SellerOf), name);
  }

  lemma NameListed(rs: seq<Interaction>, name: string)
    ensures name in SellerNames(rs) <==> name != NotInformed && name in Project(rs, SellerOf)
  {
    InColumn(NamedRecords(rs), SellerOf, name);
    InColumn(rs, SellerOf, name);
    if name in SellerNames(rs) {
      ListedNameIsStored(rs, name);
    }
    if name != NotInformed && name in Project(rs, SellerOf) {
      StoredNameIsListed(rs, name);
    }
  }

  lemma ListedNameIsStored(rs: seq<Interaction>, name: string)
    requires exists i :: 0 <= i < |NamedRecords(rs)| && SellerOf(NamedRecords(rs)[i]) == name
    ensures name != NotInformed && exists j :: 0 <= j < |rs| && SellerOf(rs[j]) == name
  {
    var named := NamedRecords(rs);
    var i :| 0 <= i < |named| && SellerOf(named[i]) == name;
    var x := named[i];
    assert x in rs && IsNamed(x);
    var j :| 0 <= j < |rs| && rs[j] == x;
    assert SellerOf(rs[j]) == name;
  }

  lemma StoredNameIsListed(rs: seq<Interaction>, name: string)
    requires name != NotInformed && exists j :: 0 <= j < |rs| && SellerOf(rs[j]) == name
    ensures exists i :: 0 <= i < |NamedRecords(rs)| && SellerOf(NamedRecords(rs)[i]) == name
  {
    var named := NamedRecords(rs);
    var j :| 0 <= j < |rs| && SellerOf(rs[j]) == name;
    var x := rs[j];
    assert x in named;
    var i :| 0 <= i < |named| && named[i] == x;
    assert SellerOf(named[i]) == name;
  }

  /** The seller totals add up to the number of named records: they are
      the counts of the multiset of names. */
  lemma SellerTotalsSum(rs: seq<Interaction>)
    ensures var totals := ValueCounts(SellerNames(rs));
            && |totals| == |NamedRecords(rs)|
            && (forall name :: name in SellerRollup(rs) ==> SellerRollup(rs)[name].total == totals[name])
            && (forall name :: name !in SellerRollup(rs) ==> totals[name] == 0)
  {
    var totals := ValueCounts(SellerNames(rs));
    forall name ensures Count(SellerNames(rs), name) == if name != NotInformed then Count(Project(rs, SellerOf), name) else 0 {
      CountAfterFilter(rs, SellerOf, name, IsNamed);
    }
  }

  // ---------------------------------------------------------------------
  // Alerts

  predicate IsAlert(r: Interaction) { r.profile != Warrior }

  /** Named records whose archetype is not the ideal one. */
  function AlertRecords(rs: seq<Interaction>): (a: seq<Interaction>)
    ensures |a| <= |NamedRecords(rs)|
    ensures forall r :: r in a <==> r in rs && r.sellerName != NotInformed && r.profile != Warrior
  {
    Filter(NamedRecords(rs), IsAlert)
  }

  /** `groupby(['nome_vendedor', 'perfil_ia']).size().unstack(fill_value=0)`
      over the alert records: the cell of a seller and an archetype is the
      number of stored records with both, zero for the ideal archetype and
      for the "Não informado" name; the cells add up to the number of
      alert records. */
  function AlertTable(rs: seq<Interaction>): (t: multiset<(string, string)>)
    ensures |t| == |AlertRecords(rs)|
    ensures forall name, profile :: t[(name, profile)]
              == if name != NotInformed && profile != Warrior
                 then Count(Project(rs, SellerAndProfile), (name, profile)) else 0
  {
    var t := ValueCounts(Project(AlertRecords(rs), SellerAndProfile));
    forall name, profile ensures t[(name, profile)]
              == if name != NotInformed && profile != Warrior
                 then Count(Project(rs, SellerAndProfile), (name, profile)) else 0 {
      var y := (name, profile);
      AlertRecordsAre(rs);
      CountAfterFilter(rs, SellerAndProfile, y, IsNamedAlert);
    }
    t
  }

  lemma AlertRecordsAre(rs: seq<Interaction>)
    ensures AlertRecords(rs) == Filter(rs, IsNamedAlert)
  {
    FilterFilter(rs, IsNamed, IsAlert, IsNamedAlert);
  }

  predicate IsNamedAlert(r: Interaction) { IsNamed(r) && IsAlert(r) }

  /** Two filters in a row are one filter by the conjunction. */
  lemma {:induction false} FilterFilter<T(!new)>(xs: seq<T>, p: T -> bool, q: T -> bool, both: T -> bool)
    requires forall x :: both(x) == (p(x) && q(x))
    ensures Filter(Filter(xs, p), q) == Filter(xs, both)
    decreases |xs|
  {
    if xs != [] {
      FilterFilter(xs[1..], p, q, both);
      FilterCons(xs, p);
      FilterCons(xs, both);
      if p(xs[0]) {
        FilterCons(Filter(xs, p), q);
      }
    }
  }

  /** The row sums of the alert table (its bar chart): per seller, the
      number of that seller's records with a non-ideal archetype, never
      more than the seller's total. */
  function AlertTotals(rs: seq<Interaction>): (m: multiset<string>)
    ensures |m| == |AlertRecords(rs)|
    ensures forall name :: m[name] == if name != NotInformed then |Filter(rs, AlertOf(name))| else 0
    ensures forall name :: name in SellerRollup(rs) ==> m[name] <= SellerRollup(rs)[name].total
    ensures forall name :: name !in SellerRollup(rs) ==> m[name] == 0
  {
    var m := ValueCounts(Project(AlertRecords(rs), SellerOf));
    forall name ensures m[name] <= Count(SellerNames(rs), name) {
      AlertRowBound(rs, name);
    }
    forall name ensures m[name] == if name != NotInformed then |Filter(rs, AlertOf(name))| else 0 {
      AlertRowIs(rs, name);
    }
    SellerTotalsSum(rs);
    m
  }

  /** The records of one seller with a non-ideal archetype. */
  function AlertOf(name: string): Interaction -> bool {
    (r: Interaction) => r.sellerName == name && IsAlert(r)
  }

  /** A seller's alert row sum counts that seller's non-ideal records;
      the "Não informado" name has none. */
  lemma AlertRowIs(rs: seq<Interaction>, name: string)
    ensures Count(Project(AlertRecords(rs), SellerOf), name)
            == if name != NotInformed then |Filter(rs, AlertOf(name))| else 0
  {
    AlertRecordsAre(rs);
    if name != NotInformed {
      GroupSize(AlertRecords(rs), SellerOf, name, HasName(name));
      FilterFilter(rs, IsNamedAlert, HasName(name), AlertOf(name));
    } else {
      CountAfterFilter(rs, SellerOf, name, IsNamedAlert);
    }
  }

  /** No cell of the alert table exceeds its row sum. */
  lemma AlertCellBound(rs: seq<Interaction>, name: string, profile: string)
    ensures AlertTable(rs)[(name, profile)] <= AlertTotals(rs)[name]
  {
    PairCountBound(AlertRecords(rs), name, profile);
  }

  /** A (seller, archetype) pair occurs no more often than its seller. */
  lemma {:induction false} PairCountBound(xs: seq<Interaction>, name: string, profile: string)
    ensures Count(Project(xs, SellerAndProfile), (name, profile)) <= Count(Project(xs, SellerOf), name)
    decreases |xs|
  {
    if xs != [] {
      PairCountBound(xs[1..], name, profile);
      assert Project(xs, SellerAndProfile)[1..] == Project(xs[1..], SellerAndProfile);
      assert Project(xs, SellerOf)[1..] == Project(xs[1..], SellerOf);
    }
  }

  lemma AlertRowBound(rs: seq<Interaction>, name: string)
    ensures Count(Project(AlertRecords(rs), SellerOf), name) <= Count(SellerNames(rs), name)
  {
    FilteredCountBound(NamedRecords(rs), SellerOf, name, IsAlert);
  }

  lemma {:induction false} FilteredCountBound<T(!new), U>(xs: seq<T>, f: T -> U, y: U, p: T -> bool)
    ensures Count(Project(Filter(xs, p), f), y) <= Count(Project(xs, f), y)
    decreases |xs|
  {
    if xs != [] {
      FilteredCountBound(xs[1..], f, y, p);
      var r := Filter(xs[1..], p);
      assert Project(xs, f)[1..] == Project(xs[1..], f);
      if p(xs[0]) {
        assert Filter(xs, p) == [xs[0]] + r;
        assert Project(Filter(xs, p), f)[1..] == Project(r, f);
      } else {
        assert Filter(xs, p) == r;
      }
    }
  }

  // ---------------------------------------------------------------------
  // The five most frequent objections

  /** The distinct values of `xs`, in the order they first occur. */
  function Distinct(xs: seq<string>): (r: seq<string>)
    ensures forall x :: x in r <==> x in xs
    ensures forall i, j :: 0 <= i < j < |r| ==> r[i] != r[j]
    decreases |xs|
  {
    if xs == [] then []
    else
      var others := Filter(xs[1..], x => x != xs[0]);
      var tail := Distinct(others);
      assert xs[0] !in tail;
      assert forall x :: x in xs <==> x == xs[0] || x in others by {
        assert forall x :: x in xs <==> x == xs[0] || x in xs[1..];
      }
      var r := [xs[0]] + tail;
      assert forall i :: 0 < i < |r| ==> r[i] == tail[i - 1];
      r
  }

  /** The index of the first candidate with the highest count. */
  function ArgMax(xs: seq<string>, cands: seq<string>): (i: nat)
    requires |cands| > 0
    ensures i < |cands|
    decreases |cands|
  {
    if |cands| == 1 then 0
    else
      var k := ArgMax(xs, cands[1..]) + 1;
      if Count(xs, cands[0]) >= Count(xs, cands[k]) then 0 else k
  }

  /** No candidate counts more than the one `ArgMax` picks. */
  lemma {:induction false} ArgMaxIsMax(xs: seq<string>, cands: seq<string>, j: nat)
    requires j < |cands|
    ensures Count(xs, cands[j]) <= Count(xs, cands[ArgMax(xs, cands)])
    decreases |cands|
  {
    if |cands| > 1 && j > 0 {
      ArgMaxIsMax(xs, cands[1..], j - 1);
      assert cands[1..][j - 1] == cands[j];
    }
  }

  function Min(a: nat, b: nat): nat { if a <= b then a else b }

  /** `v` is the value of some row of a table of (value, count) rows. */
  predicate Listed(entries: seq<(string, nat)>, v: string)
    decreases |entries|
  {
    entries != [] && (entries[0].0 == v || Listed(entries[1..], v))
  }

  lemma ListedCons(e: (string, nat), entries: seq<(string, nat)>, v: string)
    ensures Listed([e] + entries, v) <==> e.0 == v || Listed(entries, v)
  {
    assert ([e] + entries)[1..] == entries;
  }

  /** No value occurs twice. */
  predicate AllDifferent(cands: seq<string>) {
    forall a, b :: 0 <= a < b < |cands| ==> cands[a] != cands[b]
  }

  /** `cands` without its `i`-th element. */
  function RemoveAt(cands: seq<string>, i: nat): (rest: seq<string>)
    requires i < |cands|
    ensures |rest| == |cands| - 1
  {
    cands[..i] + cands[i + 1..]
  }

  /** What is left after the removal is a candidate, and every other
      candidate is left. */
  lemma RemoveAtMembers(cands: seq<string>, i: nat, c: string)
    requires i < |cands|
    ensures c in RemoveAt(cands, i) ==> c in cands
    ensures c in cands && c != cands[i] ==> c in RemoveAt(cands, i)
  {
    var rest := RemoveAt(cands, i);
    if c in cands && c != cands[i] {
      var j :| 0 <= j < |cands| && cands[j] == c;
      if j < i { assert rest[j] == c; } else { assert rest[j - 1] == c; }
    }
  }

  /** Removing from distinct values removes the value for good. */
  lemma RemoveAtDistinct(cands: seq<string>, i: nat)
    requires i < |cands| && AllDifferent(cands)
    ensures AllDifferent(RemoveAt(cands, i))
    ensures cands[i] !in RemoveAt(cands, i)
  {
    var rest := RemoveAt(cands, i);
    assert forall a :: 0 <= a < |rest| ==> rest[a] == if a < i then cands[a] else cands[a + 1];
  }

  /** Up to `k` candidates with their counts, by decreasing count: the
      first one with the highest count, then the same for the others. */
  function SelectTop(xs: seq<string>, cands: seq<string>, k: nat): (r: seq<(string, nat)>)
    ensures |r| == Min(k, |cands|)
    decreases k
  {
    if k == 0 || |cands| == 0 then []
    else
      var i := ArgMax(xs, cands);
      [(cands[i], Count(xs, cands[i]))] + SelectTop(xs, RemoveAt(cands, i), k - 1)
  }

  /** The first row is the first candidate with the highest count; the
      other rows are the selection among the remaining candidates. */
  lemma SelectTopCons(xs: seq<string>, cands: seq<string>, k: nat)
    requires k > 0 && |cands| > 0
    ensures var i := ArgMax(xs, cands);
            var r := SelectTop(xs, cands, k);
            var tail := SelectTop(xs, RemoveAt(cands, i), k - 1);
            && |r| == |tail| + 1
            && r[0] == (cands[i], Count(xs, cands[i]))
            && forall n :: 0 < n < |r| ==> r[n] == tail[n - 1]
  {
  }

  /** Every row is a candidate with its own count. */
  lemma {:induction false} SelectTopRows(xs: seq<string>, cands: seq<string>, k: nat)
    ensures forall i :: 0 <= i < |SelectTop(xs, cands, k)| ==>
              SelectTop(xs, cands, k)[i].0 in cands
              && SelectTop(xs, cands, k)[i].1 == Count(xs, SelectTop(xs, cands, k)[i].0)
    decreases k
  {
    if k > 0 && |cands| > 0 {
      var i := ArgMax(xs, cands);
      var rest := RemoveAt(cands, i);
      var tail := SelectTop(xs, rest, k - 1);
      SelectTopRows(xs, rest, k - 1);
      SelectTopCons(xs, cands, k);
      var r := SelectTop(xs, cands, k);
      forall n | 0 <= n < |r| ensures r[n].0 in cands && r[n].1 == Count(xs, r[n].0) {
        var e := r[n];
        if n == 0 {
          assert e == (cands[i], Count(xs, cands[i]));
        } else {
          assert e == tail[n - 1];
          assert e.0 in rest && e.1 == Count(xs, e.0);
          RemoveAtMembers(cands, i, e.0);
        }
      }
    }
  }

  /** No candidate is listed twice, and the counts never increase. */
  lemma {:induction false} SelectTopOrdered(xs: seq<string>, cands: seq<string>, k: nat)
    requires AllDifferent(cands)
    ensures forall i, j :: 0 <= i < j < |SelectTop(xs, cands, k)| ==>
              SelectTop(xs, cands, k)[i].0 != SelectTop(xs, cands, k)[j].0
              && SelectTop(xs, cands, k)[j].1 <= SelectTop(xs, cands, k)[i].1
    decreases k
  {
    if k > 0 && |cands| > 0 {
      var i := ArgMax(xs, cands);
      var rest := RemoveAt(cands, i);
      var tail := SelectTop(xs, rest, k - 1);
      RemoveAtDistinct(cands, i);
      SelectTopOrdered(xs, rest, k - 1);
      SelectTopRows(xs, rest, k - 1);
      var r := SelectTop(xs, cands, k);
      SelectTopCons(xs, cands, k);
      forall a, b | 0 <= a < b < |r| ensures r[a].0 != r[b].0 && r[b].1 <= r[a].1 {
        assert r[b] == tail[b - 1];
        if a == 0 {
          var c := tail[b - 1].0;
          assert c in rest && tail[b - 1].1 == Count(xs, c);
          RemoveAtMembers(cands, i, c);
          var j :| 0 <= j < |cands| && cands[j] == c;
          ArgMaxIsMax(xs, cands, j);
        }
      }
    }
  }

  /** Every row of `r` counts at least `m`. */
  predicate NoneBelow(m: nat, r: seq<(string, nat)>) {
    forall n :: 0 <= n < |r| ==> m <= r[n].1
  }

  lemma NoneBelowCons(m: nat, e: (string, nat), tail: seq<(string, nat)>)
    requires m <= e.1 && NoneBelow(m, tail)
    ensures NoneBelow(m, [e] + tail)
  {
    var r := [e] + tail;
    forall n | 0 <= n < |r| ensures m <= r[n].1 {
      if n > 0 {
        assert r[n] == tail[n - 1];
      }
    }
  }

  /** A candidate left out occurs no more often than any listed one. */
  lemma {:induction false} SelectTopDominates(xs: seq<string>, cands: seq<string>, k: nat, c: string)
    requires c in cands && !Listed(SelectTop(xs, cands, k), c)
    ensures NoneBelow(Count(xs, c), SelectTop(xs, cands, k))
    decreases k
  {
    if k > 0 && |cands| > 0 {
      var i := ArgMax(xs, cands);
      var rest := RemoveAt(cands, i);
      LeftOutStep(xs, cands, k, c, i);
      SelectTopDominates(xs, rest, k - 1, c);
      NoneBelowCons(Count(xs, c), (cands[i], Count(xs, cands[i])), SelectTop(xs, rest, k - 1));
    }
  }

  /** One step of the selection: a candidate left out is not the one
      chosen first, counts no more than it, and is left out of the rest
      of the selection too. */
  lemma LeftOutStep(xs: seq<string>, cands: seq<string>, k: nat, c: string, i: nat)
    requires k > 0 && |cands| > 0 && i == ArgMax(xs, cands)
    requires c in cands && !Listed(SelectTop(xs, cands, k), c)
    ensures c in RemoveAt(cands, i)
    ensures !Listed(SelectTop(xs, RemoveAt(cands, i), k - 1), c)
    ensures Count(xs, c) <= Count(xs, cands[i])
  {
    var rest := RemoveAt(cands, i);
    var tail := SelectTop(xs, rest, k - 1);
    var top := (cands[i], Count(xs, cands[i]));
    assert SelectTop(xs, cands, k) == [top] + tail;
    ListedCons(top, tail, c);
    RemoveAtMembers(cands, i, c);
    var j :| 0 <= j < |cands| && cands[j] == c;
    ArgMaxIsMax(xs, cands, j);
  }

  /** Every candidate left out, over the whole table. */
  lemma SelectTopDominatesAll(xs: seq<string>, cands: seq<string>, k: nat)
    ensures forall c :: c in cands && !Listed(SelectTop(xs, cands, k), c) ==>
              forall i :: 0 <= i < |SelectTop(xs, cands, k)| ==> Count(xs, c) <= SelectTop(xs, cands, k)[i].1
  {
    forall c | c in cands && !Listed(SelectTop(xs, cands, k), c) {
      SelectTopDominates(xs, cands, k, c);
    }
  }

  /** `value_counts().head(5)` of 'input_vendedor': as many of the distinct
      objection texts as there are, up to five, each once with its count,
      by decreasing count, and no text left out occurs more often than
      one listed. The order among equal counts is pandas' own; here it is
      the order of first occurrence. */
  function TopObjections(rs: seq<Interaction>): (r: seq<(string, nat)>)
    ensures |r| == Min(5, |Distinct(Project(rs, InputOf))|)
    ensures forall i :: 0 <= i < |r| ==>
              r[i].0 in Project(rs, InputOf) && r[i].1 == Count(Project(rs, InputOf), r[i].0)
    ensures forall i, j :: 0 <= i < j < |r| ==> r[i].0 != r[j].0 && r[j].1 <= r[i].1
    ensures forall x :: x in Project(rs, InputOf) && !Listed(r, x) ==>
              forall i :: 0 <= i < |r| ==> Count(Project(rs, InputOf), x) <= r[i].1
  {
    var inputs := Project(rs, InputOf);
    var cands := Distinct(inputs);
    SelectTopRows(inputs, cands, 5);
    SelectTopOrdered(inputs, cands, 5);
    SelectTopDominatesAll(inputs, cands, 5);
    SelectTop(inputs, cands, 5)
  }

  // ---------------------------------------------------------------------
  // The screen as a whole

  /** What the manager's screen shows. With no documents at all, or none in
      the chosen days, only a message. Otherwise the report: the records
      of the period, the archetype and flag counts, the rate (none: the
      "no strategy applied" message), the seller table (none: the "fill in
      your name" message), the alert table and its row sums (none: the
      congratulation message) and the top objections. */
  datatype Panel =
    | NoInteractions
    | NoInteractionsInPeriod
    | Report(shown: seq<Interaction>, profiles: multiset<string>, appliedCounts: multiset<string>,
             rate: Option<real>, sellers: Option<map<string, SellerRow>>,
             alerts: Option<(multiset<(string, string)>, multiset<string>)>,
             top: seq<(string, nat)>)

  function ManagerPanel(rs: seq<Interaction>, start: int, end: int): (p: Panel)
    ensures p == NoInteractions <==> rs == []
    ensures p == NoInteractionsInPeriod <==>
              rs != [] && forall i :: 0 <= i < |rs| ==> !InRange(rs[i], start, end)
    ensures p.Report? ==> p.shown == FilterByDate(rs, start, end) && p.shown != []
    ensures p.Report? ==> (p.sellers.Some? <==> exists i :: 0 <= i < |p.shown| && IsNamed(p.shown[i]))
    ensures p.Report? ==> (p.alerts.Some? <==> exists i :: 0 <= i < |p.shown| && IsNamedAlert(p.shown[i]))
    ensures p.Report? && p.alerts.Some? ==> p.sellers.Some?
    ensures p.Report? ==> 1 <= |p.top| <= 5
    ensures p.Report? ==> p.profiles == ProfileCounts(p.shown) && p.appliedCounts == AppliedCounts(p.shown)
    ensures p.Report? ==> p.rate == ApplicationRate(p.shown) && p.top == TopObjections(p.shown)
    ensures p.Report? && p.sellers.Some? ==> p.sellers.value == SellerRollup(p.shown)
    ensures p.Report? && p.alerts.Some? ==> p.alerts.value == (AlertTable(p.shown), AlertTotals(p.shown))
  {
    if rs == [] then NoInteractions
    else
      var shown := FilterByDate(rs, start, end);
      FilterEmpty(rs, x => InRange(x, start, end));
      if shown == [] then NoInteractionsInPeriod
      else
        Report(shown, ProfileCounts(shown), AppliedCounts(shown), ApplicationRate(shown),
               SellerTable(shown), Alerts(shown), Top(shown))
  }

  /** The seller table, when some record carries a name. */
  function SellerTable(shown: seq<Interaction>): (t: Option<map<string, SellerRow>>)
    ensures t.Some? <==> exists i :: 0 <= i < |shown| && IsNamed(shown[i])
    ensures t.Some? ==> t.value == SellerRollup(shown)
  {
    FilterEmpty(shown, IsNamed);
    if NamedRecords(shown) == [] then None else Some(SellerRollup(shown))
  }

  /** The alert table and its row sums, when some named record has a
      non-ideal archetype. */
  function Alerts(shown: seq<Interaction>): (a: Option<(multiset<(string, string)>, multiset<string>)>)
    ensures a.Some? <==> exists i :: 0 <= i < |shown| && IsNamedAlert(shown[i])
    ensures a.Some? ==> a.value == (AlertTable(shown), AlertTotals(shown))
  {
    AlertRecordsAre(shown);
    FilterEmpty(shown, IsNamedAlert);
    if AlertRecords(shown) == [] then None else Some((AlertTable(shown), AlertTotals(shown)))
  }

  /** The top objections of a non-empty period: at least one. */
  function Top(shown: seq<Interaction>): (top: seq<(string, nat)>)
    requires shown != []
    ensures 1 <= |top| <= 5
    ensures top == TopObjections(shown)
  {
    var inputs := Project(shown, InputOf);
    assert inputs[0] in inputs;
    assert inputs[0] in Distinct(inputs);
    TopObjections(shown)
  }

  /** Three records of the seller "Ana": twice the ideal archetype, once
      "O Medroso". */
  function SampleTeam(t: Timestamp): seq<Interaction> {
    [Interaction("a", Warrior, "", "", "", Yes, "Ana", t),
     Interaction("b", Warrior, "", "", "", Yes, "Ana", t),
     Interaction("c", "O Medroso", "", "", "", No, "Ana", t)]
  }

  /** The alert table counts every non-ideal archetype of a named seller,
      even for a seller whose dominant archetype is the ideal one: "Ana"
      is listed with the dominant archetype "O Guerreiro" and still appears
      in the alert table with one "O Medroso". */
  lemma AlertDespiteIdealMode(t: Timestamp)
    ensures SellerRollup(SampleTeam(t))["Ana"].dominantProfile == Warrior
    ensures AlertTable(SampleTeam(t))[("Ana", "O Medroso")] == 1
  {
    SampleTeamMode(t);
    SampleTeamAlert(t);
  }

  lemma SampleTeamMode(t: Timestamp)
    ensures "Ana" in SellerRollup(SampleTeam(t))
    ensures SellerRollup(SampleTeam(t))["Ana"].dominantProfile == Warrior
  {
    var rs := SampleTeam(t);
    SampleTeamRow(t);
    var profiles := Project(rs, ProfileOf);
    assert RowOf(rs).dominantProfile == Mode(profiles);
    SampleTeamProfiles(t);
    SampleProfileCounts(profiles);
    assert Mode(profiles) in profiles && Count(profiles, Mode(profiles)) >= Count(profiles, Warrior);
  }

  lemma SampleTeamRow(t: Timestamp)
    ensures "Ana" in SellerRollup(SampleTeam(t))
    ensures SellerRollup(SampleTeam(t))["Ana"] == RowOf(SampleTeam(t))
  {
    var rs := SampleTeam(t);
    assert "Ana" != NotInformed;
    assert Project(rs, SellerOf)[0] == "Ana";
    FilterAll(rs, HasName("Ana"));
  }

  lemma SampleTeamProfiles(t: Timestamp)
    ensures Project(SampleTeam(t), ProfileOf) == [Warrior, Warrior, "O Medroso"]
  {
  }

  lemma SampleProfileCounts(profiles: seq<string>)
    requires profiles == [Warrior, Warrior, "O Medroso"]
    ensures Count(profiles, Warrior) == 2 && Count(profiles, "O Medroso") == 1
  {
    assert Warrior != "O Medroso" by { assert Warrior[2] != "O Medroso"[2]; }
    assert profiles[1..] == [Warrior, "O Medroso"];
    assert profiles[2..] == ["O Medroso"];
    assert profiles[2..][1..] == [];
    assert Count(profiles[2..], Warrior) == 0 && Count(profiles[2..], "O Medroso") == 1;
    assert Count(profiles[1..], Warrior) == 1 && Count(profiles[1..], "O Medroso") == 1;
  }

  lemma SampleTeamAlert(t: Timestamp)
    ensures AlertTable(SampleTeam(t))[("Ana", "O Medroso")] == 1
  {
    var rs := SampleTeam(t);
    assert "Ana" != NotInformed;
    assert Warrior != "O Medroso" by { assert Warrior[2] != "O Medroso"[2]; }
    var col := Project(rs, SellerAndProfile);
    assert col == [("Ana", Warrior), ("Ana", Warrior), ("Ana", "O Medroso")];
    assert col[1..] == [("Ana", Warrior), ("Ana", "O Medroso")];
    assert col[2..] == [("Ana", "O Medroso")];
    assert col[2..][1..] == [];
    assert ("Ana", Warrior) != ("Ana", "O Medroso");
    assert Count(col[2..], ("Ana", "O Medroso")) == 1;
    assert Count(col[1..], ("Ana", "O Medroso")) == 1;
    assert Count(col, ("Ana", "O Medroso")) == 1;
  }
}
