/** The constant option lists of the filter bar (src/constants/filters.ts). */
module Filters {
  import opened Types
  import opened Lists
  import Domains

  /** The keys of `POSITION_CATEGORIES`. */
  datatype CategoryKey = DEV | DESIGN | PLANNER | MARKETING

  datatype PositionCategory = PositionCategory(key: CategoryKey, caption: string, values: seq<PositionType>)

  /** `Object.values(POSITION_CATEGORIES)`, in declaration order. */
  const POSITION_CATEGORIES: seq<PositionCategory> := [
    PositionCategory(DEV, "개발", ["FRONT", "APP", "BACKEND", "DATA", "OTHERS"]),
    PositionCategory(DESIGN, "디자인", ["DESIGN"]),
    PositionCategory(PLANNER, "기획", ["PLANNER"]),
    PositionCategory(MARKETING, "마케팅", ["MARKETING"])
  ]

  /** `POSITION_CATEGORIES[key]`. */
  function CategoryOf(key: CategoryKey): (c: PositionCategory)
    ensures c in POSITION_CATEGORIES && c.key == key
  {
    match key
    case DEV => POSITION_CATEGORIES[0]
    case DESIGN => POSITION_CATEGORIES[1]
    case PLANNER => POSITION_CATEGORIES[2]
    case MARKETING => POSITION_CATEGORIES[3]
  }

  const DOMAINS: seq<Domains.Domain> := [
    Domains.FINTECH, Domains.HEALTHTECH, Domains.EDUCATION, Domains.ECOMMERCE, Domains.FOODTECH,
    Domains.MOBILITY, Domains.CONTENTS, Domains.B2B, Domains.OTHERS
  ]

  datatype OrderOption = OrderOption(caption: string, value: int)

  const ORDER_OPTIONS: seq<OrderOption> := [OrderOption("최신순", 0), OrderOption("마감일순", 1)]

  /** No position belongs to two categories. */
  lemma CategoriesDisjoint()
    ensures forall i, j, p ::
      0 <= i < j < |POSITION_CATEGORIES| && p in POSITION_CATEGORIES[i].values ==> p !in POSITION_CATEGORIES[j].values
  {
  }

  /** Together the categories hold exactly the eight position types, each
      category without repetition, and every category has a non-empty caption. */
  lemma CategoriesCoverPositionTypes()
    ensures forall p :: p in POSITION_TYPES <==> exists i :: 0 <= i < |POSITION_CATEGORIES| && p in POSITION_CATEGORIES[i].values
    ensures forall i :: 0 <= i < |POSITION_CATEGORIES| ==> Distinct(POSITION_CATEGORIES[i].values) && POSITION_CATEGORIES[i].caption != ""
  {
    assert POSITION_CATEGORIES[0].values[4] == "OTHERS";
    forall p | p in POSITION_TYPES
      ensures exists i :: 0 <= i < |POSITION_CATEGORIES| && p in POSITION_CATEGORIES[i].values
    {
      if p in POSITION_CATEGORIES[0].values {
      } else if p == "DESIGN" {
        assert p in POSITION_CATEGORIES[1].values;
      } else if p == "PLANNER" {
        assert p in POSITION_CATEGORIES[2].values;
      } else {
        assert p in POSITION_CATEGORIES[3].values;
      }
    }
  }

  /** `DOMAINS` lists every domain exactly once. */
  lemma DomainsListEachOnce()
    ensures Distinct(DOMAINS)
    ensures forall d: Domains.Domain :: d in DOMAINS
  {
    forall d: Domains.Domain ensures d in DOMAINS {
      match d
      case FINTECH => assert DOMAINS[0] == d;
      case HEALTHTECH => assert DOMAINS[1] == d;
      case EDUCATION => assert DOMAINS[2] == d;
      case ECOMMERCE => assert DOMAINS[3] == d;
      case FOODTECH => assert DOMAINS[4] == d;
      case MOBILITY => assert DOMAINS[5] == d;
      case CONTENTS => assert DOMAINS[6] == d;
      case B2B => assert DOMAINS[7] == d;
      case OTHERS => assert DOMAINS[8] == d;
    }
  }

  /** The order options have distinct values and non-empty captions; 0, the
      value a reset restores, is the newest-first order. */
  lemma OrderOptionsDistinct()
    ensures ORDER_OPTIONS[0] == OrderOption("최신순", 0)
    ensures ORDER_OPTIONS[1] == OrderOption("마감일순", 1)
    ensures forall i, j :: 0 <= i < j < |ORDER_OPTIONS| ==> ORDER_OPTIONS[i].value != ORDER_OPTIONS[j].value
    ensures forall i :: 0 <= i < |ORDER_OPTIONS| ==> ORDER_OPTIONS[i].caption != "" && ORDER_OPTIONS[i].caption != "정렬"
  {
  }
}
