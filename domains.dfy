/** Business domains of a posting and their Korean labels (src/domain.ts). */
module Domains {

  datatype Domain = FINTECH | HEALTHTECH | EDUCATION | ECOMMERCE | FOODTECH | MOBILITY | CONTENTS | B2B | OTHERS

  /** `domainToKorean`: a label for every one of the nine domains. */
  function DomainToKorean(domain: Domain): (korean: string)
    ensures korean != ""
  {
    match domain
    case FINTECH => "핀테크"
    case HEALTHTECH => "헬스테크"
    case EDUCATION => "교육"
    case ECOMMERCE => "이커머스"
    case FOODTECH => "푸드테크"
    case MOBILITY => "모빌리티"
    case CONTENTS => "콘텐츠"
    case B2B => "B2B"
    case OTHERS => "기타"
  }

  /** No two domains share a label, so a label names its domain. */
  lemma DomainToKoreanInjective(a: Domain, b: Domain)
    ensures DomainToKorean(a) == DomainToKorean(b) ==> a == b
  {
  }

  lemma DomainLabelExamples()
    ensures DomainToKorean(FINTECH) == "핀테크"
    ensures DomainToKorean(B2B) == "B2B"
    ensures DomainToKorean(OTHERS) == "기타"
  {
  }
}
