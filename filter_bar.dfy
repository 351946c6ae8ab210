/** The filter bar (src/components/FilterBar.tsx): a temporary filter state
    that the dropdowns edit, labels computed from it, and the applied filters
    it reports to the page through `onApply`. */
module FilterBarComponent {
  import opened Results
  import opened Types
  import opened Text
  import opened Lists
  import opened Filters
  import Domains

  datatype FilterState = FilterState(
    positions: seq<PositionType>,
    isActive: bool,
    order: int,
    domains: seq<Domains.Domain>)

  /** What `handleReset` installs and applies. */
  const RESET_FILTERS := FilterState([], false, 0, [])

  const POSITION_PLACEHOLDER := "직무 카테고리"
  const DOMAIN_PLACEHOLDER := "업종"
  const ORDER_PLACEHOLDER := "정렬"

  // ---------------------------------------------------------------- list updates

  /** The membership toggle of `handlePositionToggle` and `handleDomainToggle`:
      a present value is removed everywhere it occurs, an absent one is
      appended once at the end. */
  function Toggle<T(==,!new)>(xs: seq<T>, x: T): (r: seq<T>)
    ensures x in r <==> x !in xs
    ensures forall y :: y != x ==> (y in r <==> y in xs)
    ensures x !in xs ==> r == xs + [x]
    ensures x in xs ==> r == RemoveAll(xs, x)
    ensures Distinct(xs) ==> Distinct(r)
  {
    if x in xs then RemoveAll(xs, x)
    else
      assert Distinct(xs) ==> Distinct(xs + [x]) by {
        if Distinct(xs) { DistinctAppend(xs, [x]); }
      }
      xs + [x]
  }

  /** Toggling the same value twice restores membership, and restores the
      very list when the value was absent. */
  lemma ToggleTwice<T(!new)>(xs: seq<T>, x: T)
    ensures forall y :: y in Toggle(Toggle(xs, x), x) <==> y in xs
    ensures x !in xs ==> Toggle(Toggle(xs, x), x) == xs
  {
    if x !in xs {
      RemoveAllAppend(xs, [x], x);
      assert RemoveAll([x], x) == [];
    }
  }

  /** `categoryValues.every((v) => positions.includes(v))`. */
  predicate AllSelected(positions: seq<PositionType>, values: seq<PositionType>) {
    forall v :: v in values ==> v in positions
  }

  /** The position list after `handleCategoryToggle`: when every value of
      the category is selected they are all removed; otherwise the positions
      outside the category are kept in order and the category's values
      follow, each exactly once. */
  function CategoryToggle(positions: seq<PositionType>, values: seq<PositionType>): (r: seq<PositionType>)
    requires Distinct(values)
    ensures AllSelected(positions, values) ==> forall p :: p in r <==> p in positions && p !in values
    ensures !AllSelected(positions, values) ==> AllSelected(r, values)
    ensures !AllSelected(positions, values) ==> forall v :: v in values ==> multiset(r)[v] == 1
    ensures !AllSelected(positions, values) ==> |values| <= |r| && r[|r| - |values|..] == values
    ensures AllSelected(positions, values) ==> r == RemoveEach(positions, values)
    ensures !AllSelected(positions, values) ==> r[..|r| - |values|] == RemoveEach(positions, values)
    ensures forall p :: p !in values ==> multiset(r)[p] == multiset(positions)[p]
    ensures Distinct(positions) ==> Distinct(r)
  {
    var kept := RemoveEach(positions, values);
    if AllSelected(positions, values) then kept
    else
      var r := kept + values;
      forall v | v in values ensures multiset(r)[v] == 1 {
        DistinctOccursOnce(values, v);
      }
      assert Distinct(positions) ==> Distinct(r) by {
        if Distinct(positions) { DistinctAppend(kept, values); }
      }
      r
  }

  // ---------------------------------------------------------------- labels

  /** The index of the first category whose values contain `p`
      (`Object.values(POSITION_CATEGORIES).find(...)`). */
  function FindCategory(categories: seq<PositionCategory>, p: PositionType): (r: Option<nat>)
    ensures r.Some? ==> r.value < |categories| && p in categories[r.value].values
    ensures r.Some? ==> forall j :: 0 <= j < r.value ==> p !in categories[j].values
    ensures r.None? <==> forall j :: 0 <= j < |categories| ==> p !in categories[j].values
  {
    if categories == [] then None
    else if p in categories[0].values then Some(0)
    else
      match FindCategory(categories[1..], p)
      case None => None
      case Some(k) => Some(k + 1)
  }

  /** `getPositionLabel`: the placeholder for no position, the label of the
      category holding a single position (the raw value when no category
      holds it), and the placeholder with the count for several. */
  function PositionLabel(f: FilterState): (text: string)
    ensures |f.positions| == 0 ==> text == POSITION_PLACEHOLDER
    ensures forall key :: |f.positions| == 1 && f.positions[0] in CategoryOf(key).values ==> text == CategoryOf(key).caption
    ensures |f.positions| == 1 && f.positions[0] !in POSITION_TYPES ==> text == f.positions[0]
    ensures |f.positions| >= 2 ==> text == POSITION_PLACEHOLDER + " (" + NatToDecimal(|f.positions|) + ")"
  {
    CategoriesDisjoint();
    CategoriesCoverPositionTypes();
    if |f.positions| == 0 then POSITION_PLACEHOLDER
    else if |f.positions| == 1 then
      match FindCategory(POSITION_CATEGORIES, f.positions[0])
      // every category label is non-empty, so `label || positions[0]` is the label
      case Some(k) => POSITION_CATEGORIES[k].caption
      case None => f.positions[0]
    else POSITION_PLACEHOLDER + " (" + NatToDecimal(|f.positions|) + ")"
  }

  /** `getDomainLabel`: the placeholder, the single domain's Korean name, or
      the placeholder with the count. */
  function DomainLabel(f: FilterState): (text: string)
    ensures |f.domains| == 0 ==> text == DOMAIN_PLACEHOLDER
    ensures |f.domains| == 1 ==> text == Domains.DomainToKorean(f.domains[0])
    ensures |f.domains| >= 2 ==> text == DOMAIN_PLACEHOLDER + " (" + NatToDecimal(|f.domains|) + ")"
  {
    if |f.domains| == 0 then DOMAIN_PLACEHOLDER
    else if |f.domains| == 1 then Domains.DomainToKorean(f.domains[0])
    else DOMAIN_PLACEHOLDER + " (" + NatToDecimal(|f.domains|) + ")"
  }

  /** A count label shows the number of selections in decimal, so the
      number reads back as the count. */
  lemma CountLabelReadsBack(f: FilterState)
    ensures |f.positions| >= 2 ==>
      var text := PositionLabel(f);
      var digits := text[|POSITION_PLACEHOLDER| + 2..|text| - 1];
      IsDigits(digits) && DecimalValue(digits) == |f.positions|
    ensures |f.domains| >= 2 ==>
      var text := DomainLabel(f);
      var digits := text[|DOMAIN_PLACEHOLDER| + 2..|text| - 1];
      IsDigits(digits) && DecimalValue(digits) == |f.domains|
  {
    if |f.positions| >= 2 {
      var text := PositionLabel(f);
      assert text[|POSITION_PLACEHOLDER| + 2..|text| - 1] == NatToDecimal(|f.positions|);
    }
    if |f.domains| >= 2 {
      var text := DomainLabel(f);
      assert text[|DOMAIN_PLACEHOLDER| + 2..|text| - 1] == NatToDecimal(|f.domains|);
    }
  }

  /** `getStatusLabel`. */
  function StatusLabel(f: FilterState): (text: string)
    ensures text == "모집중" <==> f.isActive
    ensures text == "전체" <==> !f.isActive
  {
    if f.isActive then "모집중" else "전체"
  }

  /** The index of the first order option with the given value
      (`ORDER_OPTIONS.find(...)`). */
  function FindOrder(options: seq<OrderOption>, value: int): (r: Option<nat>)
    ensures r.Some? ==> r.value < |options| && options[r.value].value == value
    ensures r.None? <==> forall j :: 0 <= j < |options| ==> options[j].value != value
  {
    if options == [] then None
    else if options[0].value == value then Some(0)
    else
      match FindOrder(options[1..], value)
      case None => None
      case Some(k) => Some(k + 1)
  }

  /** `getOrderLabel`: the label of the option with the current order, and
      the placeholder exactly when no option has that value. */
  function OrderLabel(f: FilterState): (text: string)
    ensures text == ORDER_PLACEHOLDER <==> forall j :: 0 <= j < |ORDER_OPTIONS| ==> ORDER_OPTIONS[j].value != f.order
    ensures f.order == 0 ==> text == "최신순"
    ensures f.order == 1 ==> text == "마감일순"
  {
    OrderOptionsDistinct();
    match FindOrder(ORDER_OPTIONS, f.order)
    case Some(k) => if ORDER_OPTIONS[k].caption != "" then ORDER_OPTIONS[k].caption else ORDER_PLACEHOLDER
    case None => ORDER_PLACEHOLDER
  }

  // ---------------------------------------------------------------- applied-filter flags

  predicate HasPositionFilter(f: FilterState) { |f.positions| > 0 }

  predicate HasDomainFilter(f: FilterState) { |f.domains| > 0 }

  predicate HasStatusFilter(f: FilterState) { f.isActive }

  predicate HasOrderFilter(f: FilterState) { f.order != 0 }

  /** The four highlight flags are all off exactly for the reset state. */
  lemma NoFlagsIffReset(f: FilterState)
    ensures !HasPositionFilter(f) && !HasDomainFilter(f) && !HasStatusFilter(f) && !HasOrderFilter(f)
      <==> f == RESET_FILTERS
  {
  }

  /** Toggling a value of a duplicate-free list empties it exactly when the
      value was the list's only element. */
  lemma ToggleEmpties<T(!new)>(xs: seq<T>, x: T)
    requires Distinct(xs)
    ensures Toggle(xs, x) == [] <==> xs == [x]
  {
    if Toggle(xs, x) == [] {
      assert x in xs;
      forall i | 0 <= i < |xs| ensures xs[i] == x {
        assert xs[i] in xs;
      }
      assert Elements(xs) == {x};
      DistinctIffElementsSize(xs);
      assert xs == [x];
    }
  }

  /** The highlights read the applied filters, and a toggle changes only the
      temporary state. Once a toggled state with no duplicate selections has
      been applied and comes back as the applied filters, the position
      (domain) highlight is off exactly when the toggled value was the only
      one selected. */
  lemma FlagAfterToggle(f: FilterState, p: PositionType, d: Domains.Domain)
    requires Distinct(f.positions) && Distinct(f.domains)
    ensures !HasPositionFilter(f.(positions := Toggle(f.positions, p))) <==> f.positions == [p]
    ensures !HasDomainFilter(f.(domains := Toggle(f.domains, d))) <==> f.domains == [d]
  {
    ToggleEmpties(f.positions, p);
    ToggleEmpties(f.domains, d);
  }

  // ---------------------------------------------------------------- the component

  datatype Dropdown = PositionDropdown | DomainDropdown | StatusDropdown | OrderDropdown

  class FilterBar {
    /** The `filters` prop: the filters the page has applied. */
    var filters: FilterState
    /** `tempFilters`: what the dropdowns edit before it is applied. */
    var temp: FilterState
    /** Every value passed to `onApply`, oldest first. */
    var applied: seq<FilterState>
    var isPositionOpen: bool
    var isDomainOpen: bool
    var isStatusOpen: bool
    var isOrderOpen: bool

    /** The temporary state starts as the applied filters; every dropdown is closed. */
    constructor (filters: FilterState)
      ensures this.filters == filters && temp == filters && applied == []
      ensures !isPositionOpen && !isDomainOpen && !isStatusOpen && !isOrderOpen
    {
      this.filters := filters;
      temp := filters;
      applied := [];
      isPositionOpen, isDomainOpen, isStatusOpen, isOrderOpen := false, false, false, false;
    }

    /** A new `filters` prop; `useState` keeps the temporary state as it is. */
    method ReceiveFilters(f: FilterState)
      modifies this`filters
      ensures filters == f
    {
      filters := f;
    }

    method ToggleDropdown(d: Dropdown)
      modifies this`isPositionOpen, this`isDomainOpen, this`isStatusOpen, this`isOrderOpen
      ensures isPositionOpen == (old(isPositionOpen) != (d == PositionDropdown))
      ensures isDomainOpen == (old(isDomainOpen) != (d == DomainDropdown))
      ensures isStatusOpen == (old(isStatusOpen) != (d == StatusDropdown))
      ensures isOrderOpen == (old(isOrderOpen) != (d == OrderDropdown))
    {
      match d
      case PositionDropdown => isPositionOpen := !isPositionOpen;
      case DomainDropdown => isDomainOpen := !isDomainOpen;
      case StatusDropdown => isStatusOpen := !isStatusOpen;
      case OrderDropdown => isOrderOpen := !isOrderOpen;
    }

    /** `handlePositionToggle`: only the position list changes. */
    method TogglePosition(position: PositionType)
      modifies this`temp
      ensures temp == old(temp).(positions := Toggle(old(temp).positions, position))
      ensures position in temp.positions <==> position !in old(temp.positions)
      ensures Distinct(old(temp.positions)) ==> Distinct(temp.positions)
    {
      temp := temp.(positions := Toggle(temp.positions, position));
    }

    /** `handleCategoryToggle`: only the position list changes. */
    method ToggleCategory(key: CategoryKey)
      modifies this`temp
      ensures temp == old(temp).(positions := CategoryToggle(old(temp).positions, CategoryOf(key).values))
    {
      CategoriesCoverPositionTypes();
      var values := CategoryOf(key).values;
      temp := temp.(positions := CategoryToggle(temp.positions, values));
    }

    /** `handleDomainToggle`: only the domain list changes. */
    method ToggleDomain(domain: Domains.Domain)
      modifies this`temp
      ensures temp == old(temp).(domains := Toggle(old(temp).domains, domain))
      ensures domain in temp.domains <==> domain !in old(temp.domains)
    {
      temp := temp.(domains := Toggle(temp.domains, domain));
    }

    /** `handleReset`: clear everything and apply the cleared state. */
    method Reset()
      modifies this`temp, this`applied
      ensures temp == RESET_FILTERS
      ensures applied == old(applied) + [RESET_FILTERS]
    {
      temp := RESET_FILTERS;
      applied := applied + [temp];
    }

    /** `handleApply`. */
    method Apply()
      modifies this`applied
      ensures applied == old(applied) + [temp]
    {
      applied := applied + [temp];
    }

    /** A status radio button. */
    method SelectStatus(active: bool)
      modifies this`temp
      ensures temp == old(temp).(isActive := active)
    {
      temp := temp.(isActive := active);
    }

    /** The status dropdown's reset button: nothing is applied. */
    method ResetStatus()
      modifies this`temp, this`isStatusOpen
      ensures temp == old(temp).(isActive := false) && !isStatusOpen
    {
      temp := temp.(isActive := false);
      isStatusOpen := false;
    }

    /** The status dropdown's apply button. */
    method ApplyStatus()
      modifies this`applied, this`isStatusOpen
      ensures applied == old(applied) + [temp] && !isStatusOpen
    {
      applied := applied + [temp];
      isStatusOpen := false;
    }

    /** An order radio button, one per entry of `ORDER_OPTIONS`. */
    method SelectOrder(option: nat)
      requires option < |ORDER_OPTIONS|
      modifies this`temp
      ensures temp == old(temp).(order := ORDER_OPTIONS[option].value)
    {
      temp := temp.(order := ORDER_OPTIONS[option].value);
    }

    /** The order dropdown's reset button: nothing is applied. */
    method ResetOrder()
      modifies this`temp, this`isOrderOpen
      ensures temp == old(temp).(order := 0) && !isOrderOpen
    {
      temp := temp.(order := 0);
      isOrderOpen := false;
    }

    /** The order dropdown's apply button. */
    method ApplyOrder()
      modifies this`applied, this`isOrderOpen
      ensures applied == old(applied) + [temp] && !isOrderOpen
    {
      applied := applied + [temp];
      isOrderOpen := false;
    }
  }
}
