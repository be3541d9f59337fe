/**
 * The pattern side of `TerminologyAnalyzer` (analyzers/terminology.py): the table of
 * known terms, the terms found in each chapter, the concepts whose variations are mixed
 * across chapters, the canonical term and severity chosen for them, and the summary
 * helpers (recommendations, most inconsistent terms).
 */
module Terminology {
  import opened Wrappers
  import opened Strings
  import opened Dicts
  import opened Analysis
  import Counter
  import Chapters

  /** `TermInconsistency` */
  datatype TermInconsistency = TermInconsistency(
    termVariations: seq<string>,
    canonicalTerm: string,
    chaptersUsage: map<string, seq<string>>,
    severity: string,
    explanation: string)

  /** Concepts with their known variations, in table order. */
  type Mappings = seq<(string, seq<string>)>

  /** `term_mappings` */
  const TermMappings: Mappings := [
    ("usecase", ["usecase", "use case", "use-case", "유스케이스", "사용사례", "사용 사례"]),
    ("entity", ["entity", "entities", "엔티티", "엔터티", "개체"]),
    ("repository", ["repository", "repo", "리포지토리", "레포지토리", "저장소"]),
    ("controller", ["controller", "컨트롤러", "제어기"]),
    ("gateway", ["gateway", "게이트웨이", "관문"]),
    ("presenter", ["presenter", "프레젠터", "표시기"]),
    ("dto", ["dto", "data transfer object", "데이터 전송 객체"]),
    ("framework", ["framework", "프레임워크", "프레임웍"]),
    ("driver", ["driver", "드라이버"]),
    ("layer", ["layer", "계층", "레이어"]),
    ("architecture", ["architecture", "아키텍처", "아키텍쳐", "구조"]),
    ("clean architecture", ["clean architecture", "클린 아키텍처", "클린 아키텍쳐", "깨끗한 아키텍처"]),
    ("dependency", ["dependency", "의존성", "의존관계", "종속성"]),
    ("interface", ["interface", "인터페이스", "접점"]),
    ("adapter", ["adapter", "adaptor", "어댑터", "어뎁터", "변환기"]),
    ("business logic", ["business logic", "비즈니스 로직", "업무 로직", "비지니스 로직"]),
    ("domain", ["domain", "도메인", "영역"]),
    ("application", ["application", "애플리케이션", "어플리케이션", "응용", "앱"]),
    ("persistence", ["persistence", "영속성", "지속성", "퍼시스턴스"]),
    ("database", ["database", "db", "데이터베이스", "디비"]),
    ("api", ["api", "API", "에이피아이"]),
    ("crud", ["crud", "CRUD"]),
    ("rest", ["rest", "REST", "레스트"]),
    ("http", ["http", "HTTP"]),
    ("json", ["json", "JSON", "제이슨"]),
    ("request", ["request", "요청", "리퀘스트"]),
    ("response", ["response", "응답", "리스폰스"]),
    ("client", ["client", "클라이언트", "고객"]),
    ("server", ["server", "서버"]),
    ("service", ["service", "서비스"]),
    ("component", ["component", "컴포넌트", "구성요소", "구성 요소"]),
    ("module", ["module", "모듈"]),
    ("package", ["package", "패키지"]),
    ("class", ["class", "클래스"]),
    ("method", ["method", "메서드", "메소드", "함수"]),
    ("function", ["function", "함수", "펑션"]),
    ("parameter", ["parameter", "파라미터", "매개변수", "인자"]),
    ("return", ["return", "반환", "리턴"]),
    ("exception", ["exception", "예외", "익셉션"]),
    ("error", ["error", "에러", "오류"]),
    ("test", ["test", "테스트"]),
    ("unit test", ["unit test", "단위 테스트", "유닛 테스트"]),
    ("integration test", ["integration test", "통합 테스트"]),
    ("mock", ["mock", "목", "모의 객체"]),
    ("stub", ["stub", "스텁"]),
    ("design pattern", ["design pattern", "디자인 패턴", "설계 패턴"]),
    ("singleton", ["singleton", "싱글톤", "싱글턴"]),
    ("factory", ["factory", "팩토리", "공장"]),
    ("observer", ["observer", "옵저버", "관찰자"]),
    ("strategy", ["strategy", "전략", "스트래티지"]),
    ("solid", ["solid", "SOLID", "솔리드"]),
    ("dry", ["dry", "DRY", "중복배제"]),
    ("kiss", ["kiss", "KISS", "단순성"]),
    ("abstraction", ["abstraction", "추상화", "추상"]),
    ("encapsulation", ["encapsulation", "캡슐화", "은닉"]),
    ("inheritance", ["inheritance", "상속"]),
    ("polymorphism", ["polymorphism", "다형성"]),
    ("coupling", ["coupling", "결합도", "커플링"]),
    ("cohesion", ["cohesion", "응집도", "응집력"]),
    ("refactoring", ["refactoring", "리팩토링", "리팩터링"]),
    ("code smell", ["code smell", "코드 스멜", "코드 냄새"]),
    ("technical debt", ["technical debt", "기술 부채", "기술적 부채"]),
    ("boundary", ["boundary", "경계", "바운더리"]),
    ("port", ["port", "포트"]),
    ("adapter pattern", ["adapter pattern", "어댑터 패턴", "변환기 패턴"]),
    ("hexagonal architecture", ["hexagonal architecture", "육각형 아키텍처", "헥사고날 아키텍처"]),
    ("onion architecture", ["onion architecture", "양파 아키텍처", "어니언 아키텍처"]),
    ("microservice", ["microservice", "마이크로서비스", "마이크로 서비스"]),
    ("monolith", ["monolith", "모놀리스", "단일체"]),
    ("separation of concerns", ["separation of concerns", "관심사 분리", "관심사의 분리"]),
    ("single responsibility", ["single responsibility", "단일 책임", "단일책임"]),
    ("open closed", ["open closed", "개방 폐쇄", "개방-폐쇄"]),
    ("liskov substitution", ["liskov substitution", "리스코프 치환", "리스코브 치환"]),
    ("interface segregation", ["interface segregation", "인터페이스 분리", "인터페이스 격리"]),
    ("dependency inversion", ["dependency inversion", "의존성 역전", "의존 역전", "의존관계 역전"])
  ]

  /** Concepts whose mixed naming is rated "high". */
  const HighSeverityConcepts: set<string> :=
    {"usecase", "entity", "controller", "repository", "clean architecture", "dependency", "layer"}

  /** Korean terms preferred as the canonical term. */
  const PreferredKorean: seq<string> := ["유스케이스", "엔티티", "컨트롤러", "리포지토리", "프레젠터"]

  // ---------------------------------------------------------------------------
  // Terms found in a chapter
  // ---------------------------------------------------------------------------

  function LowerAll(vs: seq<string>): (r: seq<string>)
    ensures |r| == |vs| && forall j :: 0 <= j < |vs| ==> r[j] == Lower(vs[j])
  {
    seq(|vs|, j requires 0 <= j < |vs| => Lower(vs[j]))
  }

  /** `term.lower() in [v.lower() for v in variations]` */
  predicate IsVariation(vs: seq<string>, t: string)
  {
    Lower(t) in LowerAll(vs)
  }

  /** `variation.lower() in text_lower` */
  predicate Mentions(textLower: string, v: string)
  {
    Contains(textLower, Lower(v))
  }

  /** The variations among the first m of `vs` that the text mentions. */
  function MentionedTo(vs: seq<string>, textLower: string, m: nat): set<string>
    requires m <= |vs|
    decreases m
  {
    if m == 0 then {}
    else MentionedTo(vs, textLower, m - 1) + (if Mentions(textLower, vs[m - 1]) then {vs[m - 1]} else {})
  }

  /** The variations of the first m concepts that the text mentions. */
  function MappingTermsTo(mappings: Mappings, textLower: string, m: nat): set<string>
    requires m <= |mappings|
    decreases m
  {
    if m == 0 then {}
    else MappingTermsTo(mappings, textLower, m - 1) + MentionedTo(mappings[m - 1].1, textLower, |mappings[m - 1].1|)
  }

  /**
   * The terms `_extract_terms_from_chapters` records for one chapter: the known
   * variations it mentions, and what the CamelCase and Korean-suffix patterns find in its
   * text (`found`).
   */
  function ChapterTerms(mappings: Mappings, found: string -> set<string>, text: string): set<string>
  {
    MappingTermsTo(mappings, Lower(text), |mappings|) + found(text)
  }

  lemma {:induction false} MentionedToIff(vs: seq<string>, textLower: string, m: nat)
    requires m <= |vs|
    ensures forall v :: v in MentionedTo(vs, textLower, m) <==> v in vs[..m] && Mentions(textLower, v)
    decreases m
  {
    if m > 0 {
      MentionedToIff(vs, textLower, m - 1);
      assert vs[..m] == vs[..m - 1] + [vs[m - 1]];
    }
  }

  lemma {:induction false} MappingTermsToIff(mappings: Mappings, textLower: string, m: nat)
    requires m <= |mappings|
    ensures forall v :: v in MappingTermsTo(mappings, textLower, m) <==>
      (exists k :: 0 <= k < m && v in mappings[k].1) && Mentions(textLower, v)
    decreases m
  {
    if m > 0 {
      MappingTermsToIff(mappings, textLower, m - 1);
      var vs := mappings[m - 1].1;
      MentionedToIff(vs, textLower, |vs|);
      assert vs[..|vs|] == vs;
    }
  }

  /**
   * A table variation is recorded for a chapter iff its lower-case form occurs in the
   * chapter's lower-cased text.
   */
  lemma {:induction false} ChapterTermsMappings(mappings: Mappings, found: string -> set<string>, text: string, v: string)
    requires exists k :: 0 <= k < |mappings| && v in mappings[k].1
    requires v !in found(text)
    ensures v in ChapterTerms(mappings, found, text) <==> Contains(Lower(text), Lower(v))
  {
    MappingTermsToIff(mappings, Lower(text), |mappings|);
  }

  /** The inner loop over one concept's variations. */
  method AddMentioned(vs: seq<string>, textLower: string, terms0: set<string>) returns (terms: set<string>)
    ensures terms == terms0 + MentionedTo(vs, textLower, |vs|)
  {
    terms := terms0;
    var j := 0;
    while j < |vs|
      invariant j <= |vs|
      invariant terms == terms0 + MentionedTo(vs, textLower, j)
    {
      if Contains(textLower, Lower(vs[j])) {
        terms := terms + {vs[j]};
      }
      j := j + 1;
    }
  }

  /** The body of `_extract_terms_from_chapters` for one chapter. */
  method ExtractChapterTerms(mappings: Mappings, found: string -> set<string>, text: string) returns (terms: set<string>)
    ensures terms == ChapterTerms(mappings, found, text)
  {
    terms := {};
    var textLower := Lower(text);
    var k := 0;
    while k < |mappings|
      invariant k <= |mappings|
      invariant terms == MappingTermsTo(mappings, textLower, k)
    {
      terms := AddMentioned(mappings[k].1, textLower, terms);
      k := k + 1;
    }
    terms := terms + found(text);
  }

  /** `chapter_terms`: chapter IDs to their terms, in insertion order. */
  type TermsDict = Assoc<set<string>>

  /** The dictionary after storing the first m chapters, each under its ID. */
  function TermsOf(mappings: Mappings, found: string -> set<string>, chapters: seq<Chapters.Chapter>): TermsDict
    decreases |chapters|
  {
    if |chapters| == 0 then []
    else
      var c := chapters[|chapters| - 1];
      Put(TermsOf(mappings, found, chapters[..|chapters| - 1]), Chapters.GetId(c), ChapterTerms(mappings, found, c.text))
  }

  /** `_extract_terms_from_chapters` */
  method ExtractTerms(mappings: Mappings, found: string -> set<string>, chapters: seq<Chapters.Chapter>)
    returns (chapterTerms: TermsDict)
    ensures chapterTerms == TermsOf(mappings, found, chapters)
  {
    chapterTerms := [];
    var c := 0;
    while c < |chapters|
      invariant c <= |chapters|
      invariant chapterTerms == TermsOf(mappings, found, chapters[..c])
    {
      var terms := ExtractChapterTerms(mappings, found, chapters[c].text);
      assert chapters[..c + 1][..c] == chapters[..c];
      chapterTerms := Put(chapterTerms, Chapters.GetId(chapters[c]), terms);
      c := c + 1;
    }
    assert chapters[..c] == chapters;
  }

  /** The IDs of the chapters. */
  function ChapterIds(chapters: seq<Chapters.Chapter>): (r: set<string>)
    ensures forall x :: 0 <= x < |chapters| ==> Chapters.GetId(chapters[x]) in r
    ensures forall id :: id in r ==> exists x :: 0 <= x < |chapters| && Chapters.GetId(chapters[x]) == id
    decreases |chapters|
  {
    if |chapters| == 0 then {}
    else
      var n := |chapters| - 1;
      ChaptersPrefix(chapters, n);
      ChapterIds(chapters[..n]) + {Chapters.GetId(chapters[n])}
  }

  lemma ChaptersPrefix(chapters: seq<Chapters.Chapter>, n: nat)
    requires n <= |chapters|
    ensures forall x :: 0 <= x < n ==> chapters[..n][x] == chapters[x]
  {
  }

  /** The dictionary has one entry per distinct chapter ID. */
  lemma {:induction false} TermsOfKeys(mappings: Mappings, found: string -> set<string>, chapters: seq<Chapters.Chapter>)
    ensures DistinctKeys(TermsOf(mappings, found, chapters))
    ensures Keys(TermsOf(mappings, found, chapters)) == ChapterIds(chapters)
    decreases |chapters|
  {
    if |chapters| > 0 {
      var n := |chapters| - 1;
      var init := chapters[..n];
      var id := Chapters.GetId(chapters[n]);
      var terms := ChapterTerms(mappings, found, chapters[n].text);
      TermsOfKeys(mappings, found, init);
      PutDistinct(TermsOf(mappings, found, init), id, terms);
      PutKeys(TermsOf(mappings, found, init), id, terms);
    }
  }

  /**
   * A chapter's entry holds its own terms when no later chapter shares its ID (a later
   * one overwrites it).
   */
  lemma TermsOfFind(mappings: Mappings, found: string -> set<string>, chapters: seq<Chapters.Chapter>, c: nat)
    requires c < |chapters|
    requires forall e :: c < e < |chapters| ==> Chapters.GetId(chapters[e]) != Chapters.GetId(chapters[c])
    ensures Find(TermsOf(mappings, found, chapters), Chapters.GetId(chapters[c]), {})
      == ChapterTerms(mappings, found, chapters[c].text)
  {
    TermsOfFindTo(mappings, found, chapters, |chapters|, c);
    assert chapters[..|chapters|] == chapters;
  }

  lemma {:induction false} TermsOfFindTo(mappings: Mappings, found: string -> set<string>, chapters: seq<Chapters.Chapter>, m: nat, c: nat)
    requires c < m <= |chapters|
    requires forall e :: c < e < m ==> Chapters.GetId(chapters[e]) != Chapters.GetId(chapters[c])
    ensures Find(TermsOf(mappings, found, chapters[..m]), Chapters.GetId(chapters[c]), {})
      == ChapterTerms(mappings, found, chapters[c].text)
    decreases m
  {
    var d := TermsOf(mappings, found, chapters[..m - 1]);
    var terms := ChapterTerms(mappings, found, chapters[m - 1].text);
    assert chapters[..m][..m - 1] == chapters[..m - 1];
    assert TermsOf(mappings, found, chapters[..m]) == Put(d, Chapters.GetId(chapters[m - 1]), terms);
    PutFind(d, Chapters.GetId(chapters[m - 1]), terms, Chapters.GetId(chapters[c]), {});
    if c < m - 1 {
      TermsOfFindTo(mappings, found, chapters, m - 1, c);
    }
  }

  /** `sum(len(terms) for terms in chapter_terms.values())` */
  function TotalTerms(d: TermsDict): nat
    decreases |d|
  {
    if |d| == 0 then 0 else |d[0].1| + TotalTerms(d[1..])
  }

  // ---------------------------------------------------------------------------
  // Canonical term and severity
  // ---------------------------------------------------------------------------

  /** Holds a precomposed Hangul syllable (U+AC00 to U+D7A3). */
  predicate HasHangul(t: string)
  {
    exists i :: 0 <= i < |t| && '가' <= t[i] <= '힣'
  }

  /** Starts with an upper-case letter. */
  predicate UpperInitial(t: string)
  {
    |t| > 0 && 'A' <= t[0] <= 'Z'
  }

  /** The three kinds of term `_determine_canonical_term` looks for, in order. */
  datatype Preference = PreferredHangul | AnyHangul | Upper

  predicate Prefers(p: Preference, t: string)
  {
    match p
    case PreferredHangul => HasHangul(t) && t in PreferredKorean
    case AnyHangul => HasHangul(t)
    case Upper => UpperInitial(t)
  }

  predicate AnyWith(vs: seq<string>, p: Preference)
  {
    exists k :: 0 <= k < |vs| && Prefers(p, vs[k])
  }

  /** `r` is the first term of `vs` of kind `p`. */
  predicate FirstWith(vs: seq<string>, p: Preference, r: string)
  {
    exists k :: 0 <= k < |vs| && vs[k] == r && Prefers(p, r) && forall j :: 0 <= j < k ==> !Prefers(p, vs[j])
  }

  /** The first position at or after `from` holding a term of kind `p`. */
  function FirstIndex(vs: seq<string>, p: Preference, from: nat): (r: Option<nat>)
    ensures r.Some? ==> (from <= r.value < |vs| && Prefers(p, vs[r.value])
      && forall j :: from <= j < r.value ==> !Prefers(p, vs[j]))
    ensures r.None? ==> forall j :: from <= j < |vs| ==> !Prefers(p, vs[j])
    decreases |vs| - from
  {
    if from >= |vs| then None
    else if Prefers(p, vs[from]) then Some(from)
    else FirstIndex(vs, p, from + 1)
  }

  /**
   * `_determine_canonical_term`: the first Hangul term, one from the preferred list if
   * there is one; else the first term with an upper-case initial; else the first term.
   */
  function Canonical(vs: seq<string>): (r: string)
    requires |vs| > 0
    ensures r in vs
    ensures AnyWith(vs, PreferredHangul) ==> FirstWith(vs, PreferredHangul, r)
    ensures !AnyWith(vs, PreferredHangul) && AnyWith(vs, AnyHangul) ==> FirstWith(vs, AnyHangul, r)
    ensures !AnyWith(vs, AnyHangul) && AnyWith(vs, Upper) ==> FirstWith(vs, Upper, r)
    ensures !AnyWith(vs, AnyHangul) && !AnyWith(vs, Upper) ==> r == vs[0]
  {
    match FirstIndex(vs, PreferredHangul, 0)
    case Some(k) => vs[k]
    case None =>
      match FirstIndex(vs, AnyHangul, 0)
      case Some(k) => vs[k]
      case None =>
        match FirstIndex(vs, Upper, 0)
        case Some(k) => vs[k]
        case None => vs[0]
  }

  /** Some variation names, case-insensitively, a term of a high-severity concept. */
  predicate HighConcept(mappings: Mappings, variations: set<string>)
  {
    exists k :: 0 <= k < |mappings| && mappings[k].0 in HighSeverityConcepts
      && exists v :: v in variations && IsVariation(mappings[k].1, v)
  }

  /** The concept scan of `_determine_severity`, from concept k on. */
  function HighFrom(mappings: Mappings, variations: set<string>, k: nat): (r: bool)
    ensures r <==> exists x :: (k <= x < |mappings| && mappings[x].0 in HighSeverityConcepts
      && exists v :: v in variations && IsVariation(mappings[x].1, v))
    decreases |mappings| - k
  {
    if k >= |mappings| then false
    else if (exists v :: v in variations && IsVariation(mappings[k].1, v)) && mappings[k].0 in HighSeverityConcepts then true
    else HighFrom(mappings, variations, k + 1)
  }

  /** `_determine_severity` */
  function Severity(mappings: Mappings, variations: set<string>): (r: string)
    ensures r == "high" <==> HighConcept(mappings, variations)
    ensures r == "medium" <==> !HighConcept(mappings, variations) && |variations| > 2
    ensures r == "low" <==> !HighConcept(mappings, variations) && |variations| <= 2
  {
    if HighFrom(mappings, variations, 0) then "high"
    else if |variations| > 2 then "medium"
    else "low"
  }

  /** The explanation attached to a pattern finding. */
  function Explanation(concept: string, canonical: string): string
  {
    "'" + concept + "' 개념이 여러 용어로 혼용되고 있습니다. 일관성을 위해 '" + canonical + "' 사용을 권장합니다."
  }

  // ---------------------------------------------------------------------------
  // Pattern inconsistencies
  // ---------------------------------------------------------------------------

  /** The terms of a chapter that are variations of the concept. */
  function Used(terms: set<string>, vs: seq<string>): set<string>
  {
    set t | t in terms && IsVariation(vs, t)
  }

  /** Every exact-case variation string used in some chapter. */
  function UsedVariations(d: TermsDict, vs: seq<string>): set<string>
  {
    set i, t | 0 <= i < |d| && t in Used(d[i].1, vs) :: t
  }

  /** `chapters_usage`: the chapters using some variation, each with the ones it uses. */
  ghost predicate UsageOf(usage: map<string, seq<string>>, d: TermsDict, vs: seq<string>)
  {
    usage.Keys == (set i | 0 <= i < |d| && Used(d[i].1, vs) != {} :: d[i].0)
    && forall i :: 0 <= i < |d| && Used(d[i].1, vs) != {} ==> Enumerates(usage[d[i].0], Used(d[i].1, vs))
  }

  /**
   * What `_detect_pattern_inconsistencies` yields for one concept: a finding iff at least
   * two distinct variation strings are used across the chapters, listing them all, with
   * the canonical term, usage and severity derived from them.
   */
  ghost predicate IsPatternResult(mappings: Mappings, concept: string, vs: seq<string>, d: TermsDict, r: Option<TermInconsistency>)
  {
    var unique := UsedVariations(d, vs);
    (r.Some? <==> |unique| > 1)
    && (r.Some? ==>
      Enumerates(r.value.termVariations, unique)
      && |r.value.termVariations| > 0
      && r.value.canonicalTerm == Canonical(r.value.termVariations)
      && UsageOf(r.value.chaptersUsage, d, vs)
      && r.value.severity == Severity(mappings, unique)
      && r.value.explanation == Explanation(concept, r.value.canonicalTerm))
  }

  /** The loop over one chapter's terms: those that are variations of the concept. */
  method UsedTerms(terms: set<string>, vs: seq<string>) returns (list: seq<string>)
    ensures Enumerates(list, Used(terms, vs))
  {
    list := [];
    var rest := terms;
    while rest != {}
      invariant rest <= terms
      invariant |list| + |Used(rest, vs)| == |Used(terms, vs)|
      invariant forall x :: x in list <==> x in Used(terms, vs) - rest
      decreases |rest|
    {
      var term :| term in rest;
      assert Used(rest, vs) == Used(rest - {term}, vs) + (if IsVariation(vs, term) then {term} else {});
      if Lower(term) in LowerAll(vs) {
        list := list + [term];
      }
      rest := rest - {term};
    }
  }

  /** The variations listed in a usage map are the variations used in some chapter. */
  lemma {:induction false} UsageVariations(usage: map<string, seq<string>>, d: TermsDict, vs: seq<string>)
    requires DistinctKeys(d) && UsageOf(usage, d, vs)
    ensures (set id, t | id in usage && t in usage[id] :: t) == UsedVariations(d, vs)
  {
    var listed := set id, t | id in usage && t in usage[id] :: t;
    forall t | t in listed ensures t in UsedVariations(d, vs) {
      var id :| id in usage && t in usage[id];
      var i :| 0 <= i < |d| && Used(d[i].1, vs) != {} && d[i].0 == id;
    }
    forall t | t in UsedVariations(d, vs) ensures t in listed {
      var i :| 0 <= i < |d| && t in Used(d[i].1, vs);
      assert d[i].0 in usage;
    }
  }

  /** `_detect_pattern_inconsistencies` for one concept. */
  method DetectConcept(mappings: Mappings, concept: string, vs: seq<string>, d: TermsDict)
    returns (r: Option<TermInconsistency>)
    requires DistinctKeys(d)
    ensures IsPatternResult(mappings, concept, vs, d, r)
  {
    var usage: map<string, seq<string>> := map[];
    var k := 0;
    while k < |d|
      invariant k <= |d|
      invariant usage.Keys == (set i | 0 <= i < k && Used(d[i].1, vs) != {} :: d[i].0)
      invariant forall i :: 0 <= i < k && Used(d[i].1, vs) != {} ==> Enumerates(usage[d[i].0], Used(d[i].1, vs))
    {
      var list := UsedTerms(d[k].1, vs);
      if |list| > 0 {
        usage := usage[d[k].0 := list];
      }
      k := k + 1;
    }
    UsageVariations(usage, d, vs);
    var unique := set id, t | id in usage && t in usage[id] :: t;
    if |unique| > 1 {
      var variations := Enumerate(unique);
      var canonical := Canonical(variations);
      r := Some(TermInconsistency(variations, canonical, usage, Severity(mappings, unique), Explanation(concept, canonical)));
    } else {
      r := None;
    }
  }

  /** The findings among per-concept results, in concept order. */
  function Somes(rs: seq<Option<TermInconsistency>>): seq<TermInconsistency>
    decreases |rs|
  {
    if |rs| == 0 then []
    else Somes(rs[..|rs| - 1]) + (if rs[|rs| - 1].Some? then [rs[|rs| - 1].value] else [])
  }

  /** `_detect_pattern_inconsistencies`: one result per concept of the table, in table order. */
  method DetectPatterns(mappings: Mappings, d: TermsDict)
    returns (inconsistencies: seq<TermInconsistency>, ghost results: seq<Option<TermInconsistency>>)
    requires DistinctKeys(d)
    ensures |results| == |mappings| && inconsistencies == Somes(results)
    ensures forall k :: 0 <= k < |mappings| ==> IsPatternResult(mappings, mappings[k].0, mappings[k].1, d, results[k])
  {
    inconsistencies, results := [], [];
    var k := 0;
    while k < |mappings|
      invariant k <= |mappings| && |results| == k && inconsistencies == Somes(results)
      invariant forall x :: 0 <= x < k ==> IsPatternResult(mappings, mappings[x].0, mappings[x].1, d, results[x])
    {
      var r := DetectConcept(mappings, mappings[k].0, mappings[k].1, d);
      assert (results + [r])[..k] == results;
      forall x | 0 <= x <= k
        ensures IsPatternResult(mappings, mappings[x].0, mappings[x].1, d, (results + [r])[x])
      {
        if x < k {
          assert (results + [r])[x] == results[x];
        }
      }
      if r.Some? {
        inconsistencies := inconsistencies + [r.value];
      }
      results := results + [r];
      k := k + 1;
    }
  }

  // ---------------------------------------------------------------------------
  // Summary helpers
  // ---------------------------------------------------------------------------

  /** `len([i for i in inconsistencies if i.severity == "high"])` */
  function HighCount(incs: seq<TermInconsistency>): (r: nat)
    ensures r <= |incs|
    ensures r == 0 <==> forall k :: 0 <= k < |incs| ==> incs[k].severity != "high"
    decreases |incs|
  {
    if |incs| == 0 then 0
    else HighCount(incs[..|incs| - 1]) + (if incs[|incs| - 1].severity == "high" then 1 else 0)
  }

  const UrgentAdvice := "핵심 아키텍처 용어의 통일이 시급합니다. 용어집을 만들어 일관성을 유지하세요."
  const MixedAdvice := "영어/한글 용어가 혼용되고 있습니다. 독자층을 고려하여 일관된 언어를 선택하세요."
  const InformalAdvice := "비공식적인 약어 사용을 자제하고 정식 용어를 사용하세요."

  /** Abbreviations counted as informal. */
  const InformalTerms: seq<string> := ["디비", "앱", "레포"]

  /** Holds an ASCII character and one at or above U+AC00 (no upper bound is checked). */
  predicate MixedTerm(t: string)
  {
    (exists i :: 0 <= i < |t| && t[i] < 128 as char) && (exists i :: 0 <= i < |t| && t[i] >= '가')
  }

  /** A finding whose first variation mixes scripts; one without variations does not count. */
  predicate Mixed(inc: TermInconsistency)
  {
    |inc.termVariations| > 0 && MixedTerm(inc.termVariations[0])
  }

  predicate Informal(inc: TermInconsistency)
  {
    exists t :: t in inc.termVariations && t in InformalTerms
  }

  /** `sum(1 for i in incs if f(i))` */
  function CountIf(xs: seq<TermInconsistency>, f: TermInconsistency -> bool): (r: nat)
    ensures r <= |xs|
    decreases |xs|
  {
    if |xs| == 0 then 0
    else CountIf(xs[..|xs| - 1], f) + (if f(xs[|xs| - 1]) then 1 else 0)
  }

  /** `CountIf` counts the positions whose element satisfies `f`. */
  lemma {:induction false} CountIfTo(xs: seq<TermInconsistency>, f: TermInconsistency -> bool, m: nat)
    requires m <= |xs|
    ensures CountIf(xs[..m], f) == |set k | 0 <= k < m && f(xs[k])|
    decreases m
  {
    if m > 0 {
      CountIfTo(xs, f, m - 1);
      assert xs[..m][..m - 1] == xs[..m - 1];
      var before := set k | 0 <= k < m - 1 && f(xs[k]);
      assert (set k | 0 <= k < m && f(xs[k])) == before + (if f(xs[m - 1]) then {m - 1} else {});
      assert m - 1 !in before;
    }
  }

  /** The number of findings whose first variation mixes scripts. */
  function MixedCount(incs: seq<TermInconsistency>): nat
  {
    CountIf(incs, Mixed)
  }

  /** `MixedCount` counts the findings that mix scripts. */
  lemma MixedCountSpec(incs: seq<TermInconsistency>)
    ensures MixedCount(incs) == |set k | 0 <= k < |incs| && Mixed(incs[k])|
  {
    var f: TermInconsistency -> bool := Mixed;
    CountIfTo(incs, f, |incs|);
    assert incs[..|incs|] == incs;
    assert (set k | 0 <= k < |incs| && f(incs[k])) == set k | 0 <= k < |incs| && Mixed(incs[k]);
  }

  /**
   * `_generate_recommendations` with the evidently intended guard: a finding without
   * variations is simply not counted as mixed.
   */
  function Recommendations(incs: seq<TermInconsistency>): (r: seq<string>)
    ensures UrgentAdvice in r <==> exists k :: 0 <= k < |incs| && incs[k].severity == "high"
    ensures MixedAdvice in r <==> MixedCount(incs) > 3
    ensures InformalAdvice in r <==> exists k :: 0 <= k < |incs| && Informal(incs[k])
    ensures |r| <= 3
  {
    var urgent := exists k :: 0 <= k < |incs| && incs[k].severity == "high";
    var mixed := MixedCount(incs) > 3;
    (if urgent then [UrgentAdvice] else [])
    + (if mixed then [MixedAdvice] else [])
    + (if exists k :: 0 <= k < |incs| && Informal(incs[k]) then [InformalAdvice] else [])
  }

  /**
   * `_generate_recommendations` as written: it reads `term_variations[0]` of every
   * finding, so one finding without variations raises `IndexError`.
   */
  function RecommendationsAsWritten(incs: seq<TermInconsistency>): (r: Result<seq<string>, Failure>)
    ensures r.Err? <==> exists k :: 0 <= k < |incs| && |incs[k].termVariations| == 0
    ensures r.Err? ==> r.error == IndexError
    ensures r.Ok? ==> r.value == Recommendations(incs)
  {
    if exists k :: 0 <= k < |incs| && |incs[k].termVariations| == 0 then Err(IndexError)
    else Ok(Recommendations(incs))
  }

  /** Without an empty variation list the two versions agree. */
  lemma RecommendationsAgree(incs: seq<TermInconsistency>)
    requires forall k :: 0 <= k < |incs| ==> |incs[k].termVariations| > 0
    ensures RecommendationsAsWritten(incs) == Ok(Recommendations(incs))
  {
  }

  /**
   * A finding mapped from a model reply that leaves out `terms_found` has no variations;
   * the code as written then fails while the corrected version gives no advice.
   */
  lemma EmptyVariationsFail()
    ensures var inc := TermInconsistency([], "", map[], "medium", "");
      RecommendationsAsWritten([inc]) == Err(IndexError) && Recommendations([inc]) == []
  {
    var inc := TermInconsistency([], "", map[], "medium", "");
    assert RecommendationsAsWritten([inc]).Err? by {
      assert |[inc][0].termVariations| == 0;
    }
    assert !Informal(inc);
  }

  /** `term_counts`: per canonical term, the number of variations of its findings. */
  function Tally(incs: seq<TermInconsistency>): Counter.Counts
    decreases |incs|
  {
    if |incs| == 0 then []
    else
      var last := incs[|incs| - 1];
      Counter.Add(Tally(incs[..|incs| - 1]), last.canonicalTerm, |last.termVariations|)
  }

  /** The total number of variations over the findings whose canonical term is `key`. */
  function VariationsFor(incs: seq<TermInconsistency>, key: string): nat
    decreases |incs|
  {
    if |incs| == 0 then 0
    else
      var last := incs[|incs| - 1];
      VariationsFor(incs[..|incs| - 1], key) + (if last.canonicalTerm == key then |last.termVariations| else 0)
  }

  function CanonicalTerms(incs: seq<TermInconsistency>): set<string>
  {
    set k | 0 <= k < |incs| :: incs[k].canonicalTerm
  }

  /** The tally counts each canonical term once, with the variations of all its findings. */
  lemma TallySpec(incs: seq<TermInconsistency>, key: string)
    ensures DistinctKeys(Tally(incs))
    ensures Keys(Tally(incs)) == CanonicalTerms(incs)
    ensures Counter.Count(Tally(incs), key) == VariationsFor(incs, key)
  {
    assert incs[..|incs|] == incs;
    TallyKeysTo(incs, |incs|);
    TallyCount(incs, key);
  }

  lemma {:induction false} TallyKeysTo(incs: seq<TermInconsistency>, m: nat)
    requires m <= |incs|
    ensures DistinctKeys(Tally(incs[..m]))
    ensures Keys(Tally(incs[..m])) == set k | 0 <= k < m :: incs[k].canonicalTerm
    decreases m
  {
    if m > 0 {
      var last := incs[m - 1];
      assert incs[..m][..m - 1] == incs[..m - 1];
      var c := Tally(incs[..m - 1]);
      TallyKeysTo(incs, m - 1);
      var v: nat := Counter.Count(c, last.canonicalTerm) + |last.termVariations|;
      PutDistinct<nat>(c, last.canonicalTerm, v);
      PutKeys<nat>(c, last.canonicalTerm, v);
      assert (set k | 0 <= k < m :: incs[k].canonicalTerm)
        == (set k | 0 <= k < m - 1 :: incs[k].canonicalTerm) + {last.canonicalTerm};
    }
  }

  /** The tally has one entry per canonical term. */
  lemma {:induction false} TallySize(incs: seq<TermInconsistency>, m: nat)
    requires m <= |incs|
    ensures |Tally(incs[..m])| == |Keys(Tally(incs[..m]))|
    decreases m
  {
    if m > 0 {
      var last := incs[m - 1];
      assert incs[..m][..m - 1] == incs[..m - 1];
      var c := Tally(incs[..m - 1]);
      TallySize(incs, m - 1);
      var v: nat := Counter.Count(c, last.canonicalTerm) + |last.termVariations|;
      PutKeys<nat>(c, last.canonicalTerm, v);
      if last.canonicalTerm in Keys(c) {
        assert Keys(c) + {last.canonicalTerm} == Keys(c);
      } else {
        assert |Keys(c) + {last.canonicalTerm}| == |Keys(c)| + 1;
      }
    }
  }

  lemma {:induction false} TallyCount(incs: seq<TermInconsistency>, key: string)
    ensures Counter.Count(Tally(incs), key) == VariationsFor(incs, key)
    decreases |incs|
  {
    if |incs| > 0 {
      var n := |incs| - 1;
      var last := incs[n];
      var c := Tally(incs[..n]);
      TallyCount(incs[..n], key);
      var v: nat := Counter.Count(c, last.canonicalTerm) + |last.termVariations|;
      PutFind<nat>(c, last.canonicalTerm, v, key, 0);
    }
  }

  /** Where the first finding about `key` stands; `|incs|` when there is none. */
  function FirstFinding(incs: seq<TermInconsistency>, key: string): (r: nat)
    ensures r <= |incs|
    ensures r < |incs| ==> incs[r].canonicalTerm == key
    ensures forall j :: 0 <= j < r ==> incs[j].canonicalTerm != key
    decreases |incs|
  {
    if |incs| == 0 then 0
    else if incs[0].canonicalTerm == key then 0
    else
      var r := 1 + FirstFinding(incs[1..], key);
      assert forall j :: 1 <= j < r ==> incs[j] == incs[1..][j - 1];
      r
  }

  /** The tally lists canonical terms in the order of their first findings. */
  lemma {:induction false} TallyOrder(incs: seq<TermInconsistency>, m: nat, a: string, b: string)
    requires m <= |incs|
    requires a in Keys(Tally(incs[..m])) && b in Keys(Tally(incs[..m]))
    ensures FirstFinding(incs, a) < FirstFinding(incs, b) ==>
      Counter.Position(Tally(incs[..m]), a) < Counter.Position(Tally(incs[..m]), b)
    decreases m
  {
    var fa, fb := FirstFinding(incs, a), FirstFinding(incs, b);
    if fa >= fb {
      return;
    }
    assert m > 0 by {
      TallyKeysTo(incs, m);
    }
    var n := m - 1;
    var last := incs[n];
    var c := Tally(incs[..n]);
    assert Tally(incs[..m]) == Counter.Add(c, last.canonicalTerm, |last.termVariations|) by {
      assert incs[..m][..n] == incs[..n];
    }
    PutKeys<nat>(c, last.canonicalTerm, Counter.Count(c, last.canonicalTerm) + |last.termVariations|);
    Counter.AddPosition(c, last.canonicalTerm, |last.termVariations|, a);
    Counter.AddPosition(c, last.canonicalTerm, |last.termVariations|, b);
    assert fb <= n by {
      if b in Keys(c) {
        TallyKeysTo(incs, n);
        var i :| 0 <= i < n && incs[i].canonicalTerm == b;
      }
    }
    assert a in Keys(c) by {
      TallyKeysTo(incs, n);
      assert incs[fa].canonicalTerm == a;
    }
    if b in Keys(c) {
      TallyOrder(incs, n, a, b);
    } else {
      Counter.PositionKeys(c, a);
    }
  }

  /** The counting loop of `_get_most_inconsistent_terms`. */
  method TallyTerms(incs: seq<TermInconsistency>) returns (termCounts: Counter.Counts)
    ensures termCounts == Tally(incs)
  {
    termCounts := [];
    var k := 0;
    while k < |incs|
      invariant k <= |incs|
      invariant termCounts == Tally(incs[..k])
    {
      assert incs[..k + 1][..k] == incs[..k];
      termCounts := Counter.Add(termCounts, incs[k].canonicalTerm, |incs[k].termVariations|);
      k := k + 1;
    }
    assert incs[..k] == incs;
  }

  /** `_get_most_inconsistent_terms` */
  function MostInconsistentTerms(incs: seq<TermInconsistency>): seq<string>
  {
    Counter.MostCommon(Tally(incs), 5)
  }

  /**
   * The five canonical terms with the most variations (all of them when there are fewer),
   * each once, by descending number of variations, terms with as many variations in the
   * order of their first findings, and no term left out has more variations than one listed.
   */
  lemma MostInconsistentTermsSpec(incs: seq<TermInconsistency>)
    ensures var r := MostInconsistentTerms(incs);
      |r| <= 5
      && (forall x :: 0 <= x < |r| ==> r[x] in CanonicalTerms(incs))
      && (forall a, b :: 0 <= a < b < |r| ==> VariationsFor(incs, r[a]) >= VariationsFor(incs, r[b]))
      && (forall key, x :: key in CanonicalTerms(incs) && key !in r && 0 <= x < |r| ==>
            VariationsFor(incs, key) <= VariationsFor(incs, r[x]))
      && |r| == Min(5, |CanonicalTerms(incs)|)
      && (forall a, b :: 0 <= a < b < |r| ==> r[a] != r[b])
      && (forall a, b :: 0 <= a < b < |r| && VariationsFor(incs, r[a]) == VariationsFor(incs, r[b]) ==>
            FirstFinding(incs, r[a]) < FirstFinding(incs, r[b]))
  {
    var r := MostInconsistentTerms(incs);
    TallySpec(incs, "");
    Counter.MostCommonSpec(Tally(incs), 5);
    forall key ensures Counter.Count(Tally(incs), key) == VariationsFor(incs, key) {
      TallySpec(incs, key);
    }
    TallySize(incs, |incs|);
    assert incs[..|incs|] == incs;
    MostInconsistentTermsOrder(incs);
  }

  /** Terms with as many variations are listed in the order of their first findings. */
  lemma MostInconsistentTermsOrder(incs: seq<TermInconsistency>)
    ensures var r := MostInconsistentTerms(incs);
      forall a, b :: 0 <= a < b < |r| && VariationsFor(incs, r[a]) == VariationsFor(incs, r[b]) ==>
        FirstFinding(incs, r[a]) < FirstFinding(incs, r[b])
  {
    var r := MostInconsistentTerms(incs);
    var t := Tally(incs);
    TallySpec(incs, "");
    Counter.MostCommonRanked(t, 5);
    Counter.MostCommonOrder(t, 5);
    forall a, b | 0 <= a < b < |r| && VariationsFor(incs, r[a]) == VariationsFor(incs, r[b])
      ensures FirstFinding(incs, r[a]) < FirstFinding(incs, r[b])
    {
      TallySpec(incs, r[a]);
      TallySpec(incs, r[b]);
      FirstFindingFollowsTally(incs, r[a], r[b]);
    }
  }

  /** Of two distinct canonical terms, the one tallied first was found first. */
  lemma FirstFindingFollowsTally(incs: seq<TermInconsistency>, x: string, y: string)
    requires x in Keys(Tally(incs)) && y in Keys(Tally(incs)) && x != y
    requires Counter.Position(Tally(incs), x) < Counter.Position(Tally(incs), y)
    ensures FirstFinding(incs, x) < FirstFinding(incs, y)
  {
    assert incs[..|incs|] == incs;
    TallyKeysTo(incs, |incs|);
    TallyOrder(incs, |incs|, y, x);
    var i :| 0 <= i < |incs| && incs[i].canonicalTerm == x;
    var j :| 0 <= j < |incs| && incs[j].canonicalTerm == y;
  }


  // ---------------------------------------------------------------------------
  // Dictionaries
  // ---------------------------------------------------------------------------

  const DictKeys: set<string> := {"term_variations", "canonical_term", "chapters_usage", "severity", "explanation"}

  /** `_inconsistency_to_dict` */
  function ToDict(inc: TermInconsistency): (d: Dict)
    ensures d.Keys == DictKeys
    ensures d["term_variations"] == Strs(inc.termVariations) && d["canonical_term"] == Str(inc.canonicalTerm)
    ensures d["chapters_usage"] == Usage(inc.chaptersUsage) && d["severity"] == Str(inc.severity)
  {
    map[
      "term_variations" := Strs(inc.termVariations),
      "canonical_term" := Str(inc.canonicalTerm),
      "chapters_usage" := Usage(inc.chaptersUsage),
      "severity" := Str(inc.severity),
      "explanation" := Str(inc.explanation)]
  }

  function FromDict(d: Dict): Option<TermInconsistency>
  {
    if DictKeys <= d.Keys
      && d["term_variations"].Strs? && d["canonical_term"].Str? && d["chapters_usage"].Usage?
      && d["severity"].Str? && d["explanation"].Str?
    then Some(TermInconsistency(d["term_variations"].items, d["canonical_term"].s, d["chapters_usage"].entries,
      d["severity"].s, d["explanation"].s))
    else None
  }

  /** Nothing is lost by the conversion to a dictionary. */
  lemma DictRoundTrip(inc: TermInconsistency)
    ensures FromDict(ToDict(inc)) == Some(inc)
  {
  }
}
