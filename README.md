# book-keeper, modelled in Dafny

book-keeper checks technical books held as PDFs for quality problems. The PDFs are cut into
chapters. A language model then compares chapter pairs or reads chapters on their own, and
reports what it finds:

- contradictions;
- breaks in the order concepts are introduced in;
- redundant passages;
- code errors;
- deviations from established theory;
- inconsistent terminology.

The findings are scored, summarised and written as JSON and Markdown reports. Two pipelines
exist:

- The first pipeline (`rag_pdf_checker_v1.py`) only looks for contradictions. It saves a
  checkpoint file after every finding. `show_results.py` and `analyze_chapters.py` read that
  file back.
- The second pipeline (`rag_pdf_checker.py` and `analyzers/`) runs the six analyzers behind a
  common base class and scores the run.

This project models both pipelines' logic:

- chapter extraction, given the page texts;
- the model-reply unwrapping and its JSON fallback;
- each analyzer's pair scheduling, rate-limit sleeps, defaults and error handling;
- the local heuristics:
  - Jaccard word similarity;
  - term extraction and pattern tables;
  - severity and canonical terms;
  - code-block extraction and static checks;
  - concept extraction;
- the scores and the quality verdict;
- the report's buckets and chapter labels;
- the two result-reading scripts.

The model is built as follows:

- Pure code becomes functions.
- Code with loops becomes methods with loop invariants. Each method is proved equal to a
  specification function, and the properties the source promises are proved about that
  function.
- What the code does not compute itself is a parameter:
  - the language model, as a function from a call (or its prompt inputs) to an optional
    reply, where `None` is a raised exception;
  - the JSON decoder, as a function from text to an optional typed reply;
  - each regular expression, as a function from pattern and line to an optional capture;
  - `ast.parse`;
  - MD5.
- Sleeps, model calls and checkpoint writes are events in a returned trace.

| file | module | models |
|---|---|---|
| wrappers.dfy | Wrappers | `Option` / `Result` |
| strings.dfy | Strings | `split`, `join`, `strip`, `find`, `lower`, `isdigit`, `str(int)`, slices, Python string order |
| dicts.dfy | Dicts | insertion-ordered dictionaries |
| pairs.dfy | Pairs | the pair order `for i ...: for j in range(i+1, n)` |
| counter.dfy | Counter | `collections.Counter` and `most_common` |
| replies.dfy | Replies | `parse_llm_response`, the first pipeline's leading-fence unwrapping |
| analysis.dfy | Analysis | `AnalysisResult`, call-then-parse, sums and means |
| contradictions.dfy | Contradictions | the `Contradiction` record and its dictionary |
| chapters.dfy | Chapters | `PDFChapterExtractor` of `rag_pdf_checker.py` |
| chapters_v1.dfy | ChaptersV1 | `PDFChapterExtractor` of `rag_pdf_checker_v1.py` |
| detector.dfy | DetectorV1 | `ContradictionDetector`, `save_intermediate_results`, `_detect_all_contradictions` |
| contradiction_analyzer.dfy | ContradictionAnalyzer | `analyzers/contradiction.py` |
| redundancy.dfy | RedundancyAnalyzer | `analyzers/redundancy.py` |
| terminology.dfy | Terminology | the local heuristics of `analyzers/terminology.py` |
| terminology_analyzer.dfy | TerminologyAnalyzer | `TerminologyAnalyzer.analyze` and its model pass |
| code.dfy | CodeAnalyzer | `analyzers/code.py` |
| theory.dfy | TheoryAnalyzer | `analyzers/theory.py` |
| flow.dfy | FlowAnalyzer | `analyzers/flow.py` |
| summary_lines.dfy | SummaryLines | which `key_insights` lines a summary holds for given counts |
| quality.dfy | Quality | `QualityChecker.check`, `_create_summary`, `_get_quality_assessment` |
| report.dfy | ReportGenerator | the report sections, score colours and chapter labels of `rag_pdf_checker.py` |
| show_results.dfy | ShowResults | `show_results.py` |
| analyze_chapters.dfy | AnalyzeChapters | `analyze_chapters.py` |

## Model

Every function, method and lemma that models code of the repository has a row. The members without one are proof steps (slice, split, prefix and append lemmas), predicates that only name a condition or loop invariant used in other contracts, the `FromDict` readers that serve as inverses of the dictionary conversions, and the string and association-list helpers of modules `Strings`, `Dicts` and `Wrappers`, which stand for Python built-ins.

| member | source | states |
|---|---|---|
| Analysis.Ask | analyzers/base.py:56-106 | If the model call raises, the result is that error. Otherwise the result is what `parse_llm_response` gives, its failure mapped to a JSON error: a reply that decodes directly gives its value, and one that does not but whose fenced body decodes gives the body's value. |
| Analysis.SumBounds | analyzers/contradiction.py:102-103 | A sum of values in [lo, hi] lies between `n*lo` and `n*hi`. |
| Analysis.MeanBounds | analyzers/redundancy.py:91 | A mean of values in [lo, hi], with an empty-list value in [lo, hi], lies in [lo, hi]. |
| Analysis.DivBounds | analyzers/theory.py:113 | Dividing a sum bounded by `n*lo` and `n*hi` by a positive `n` gives a value in [lo, hi]. |
| Replies.DirectDecodeWins | analyzers/base.py:58-60 | A reply that decodes as it is comes back unchanged, and its fences are never looked at. |
| Replies.ParseFenced | analyzers/base.py:61-74 | A reply that does not decode directly is decoded from its fenced body when it has one. |
| Replies.JsonFenceRoundTrip | analyzers/base.py:63-68 | Backtick-free prose, then a "```json" block, then anything: the reply decodes to whatever the stripped block body decodes to. |
| Replies.GenericFenceKeepsTag | analyzers/base.py:69-74 | With only a generic "```" fence, decoding starts right after the fence, so a language tag stays in the decoded text. |
| Replies.ExampleReply | analyzers/base.py:63-68 | A concrete reply with prose before a "```json" block decodes like the block body. |
| Replies.UnclosedJsonFenceFails | analyzers/base.py:63-75 | A "```json" that is never closed re-raises the decode error. The generic-fence branch is not tried. |
| Replies.NoFenceFails | analyzers/base.py:69-75 | A reply without any fence that does not decode raises. |
| Replies.JsonFenceIsFence | analyzers/base.py:63-69 | A text containing "```json" contains "```". |
| Replies.FenceLocations | analyzers/base.py:64-65 | In prose + fence + body + "```" + rest, the first fence is found after the prose and the closing fence after the body. |
| Replies.LeadingFenceRoundTrip | rag_pdf_checker_v1.py:374-380 | A reply that is exactly "```json" + body + "```" unwraps to the stripped body. |
| Replies.LeadingFenceOnly | rag_pdf_checker_v1.py:374-380 | Prose before the fence stops the first pipeline's unwrapping: the reply is only stripped. |
| Replies.NoLeadingFence | rag_pdf_checker_v1.py:375-380 | A reply that does not begin with a backtick after stripping is only stripped. |
| Contradictions.FromReply | analyzers/contradiction.py:127-137 | A finding exists iff `has_contradiction` is true. It carries the two chapter IDs and, for each missing key, the default: "" for the excerpts and the explanation, "unknown" for the type, 0.5 for the confidence. |
| Contradictions.DefaultsApply | rag_pdf_checker_v1.py:382-391 | A reply holding only `has_contradiction: true` gives the finding with the documented defaults. |
| Contradictions.ToDict | analyzers/contradiction.py:139-149 | The dictionary has exactly the seven keys of `_contradiction_to_dict`, with the IDs, the type and the confidence in place. |
| Contradictions.DictRoundTrip | rag_pdf_checker_v1.py:409-418 | Reading the dictionary back gives the record back. |
| Counter.SortDescSpec | analyzers/terminology.py:358 | The sort is by descending count and is a permutation of the counter's entries. |
| Counter.InsertStable | analyzers/terminology.py:358 | Inserting the latest-added entry keeps entries of equal count in insertion order. |
| Counter.SortDescStable | analyzers/terminology.py:358 | The sort keeps keys of equal count in the order they were first added, as Python's stable sort does. |
| Counter.MostCommonRanked | analyzers/terminology.py:354-358 | The listed keys belong to the counter and come by descending count. No key left out counts more than a listed one. |
| Counter.MostCommonOrder | analyzers/terminology.py:354-358 | The listed keys are distinct, and keys of equal count come in insertion order. |
| Counter.MostCommonSpec | analyzers/terminology.py:354-358 | `most_common(k)` lists min(k, number of keys) distinct keys of the counter by descending count, with ties in insertion order. Every key left out counts no more than any key listed. |
| Counter.AddPosition | analyzers/terminology.py:355-356 | `counter[key] += n` keeps where each known key was first added, and places a new key last. |
| Counter.PositionKeys | analyzers/terminology.py:355-356 | A key's insertion position lies within the counter iff the key was added. |
| Chapters.GetIdInjective | rag_pdf_checker.py:65-67 | Two chapters get the same ID iff their 8-character hash prefixes and their numbers agree, so chapters of one PDF with the same number collide. |
| Chapters.LineMarkerNone | rag_pdf_checker.py:159-162 | A line yields no marker iff none of the four patterns matches it. |
| Chapters.LineMarkerEarliest | rag_pdf_checker.py:160-166 | A line's marker comes from the first pattern that matches it. |
| Chapters.FirstMarkerNone | rag_pdf_checker.py:157-167 | A page has no marker iff no pattern matches any of its first ten lines. |
| Chapters.FirstMarkerIsEarliest | rag_pdf_checker.py:157-166 | A page's marker is the number captured by the earliest hit, with that line stripped as the title. |
| Chapters.FindChapterMarker | rag_pdf_checker.py:153-167 | The nested scan over lines and patterns returns the page marker the specification function defines. |
| Chapters.MarkedPagesIndex | rag_pdf_checker.py:116-118 | Every page that carries a marker is a chapter start. |
| Chapters.ClosedAt | rag_pdf_checker.py:118-134 | A closed chapter runs from its start page to the page before the next start. |
| Chapters.ExtractFromClosed | rag_pdf_checker.py:139-149 | The chapters are the closed ones plus the last one, which runs to the last page. |
| Chapters.ExtractFromAt | rag_pdf_checker.py:118-149 | Chapter c runs from the c-th marked page to the page before the next marked page, or to the last page. |
| Chapters.ExtractFromPages | rag_pdf_checker.py:121-129 | Each chapter carries the file's name and hash, and the number and title of its start page's marker. Its text is its pages joined by newlines. |
| Chapters.ExtractFromUnmarked | rag_pdf_checker.py:135-137 | No page after a chapter's first page, up to its last, carries a marker. |
| Chapters.UnmarkedBefore | rag_pdf_checker.py:108-137 | No page before the first marked page carries a marker. Those pages belong to no chapter. |
| Chapters.ExtractFromAdjacent | rag_pdf_checker.py:128-134 | Chapter c ends on the page before chapter c + 1 starts. |
| Chapters.ExtractFromTiles | rag_pdf_checker.py:101-151 | The chapters follow each other without gap or overlap, and the last one ends on the last page. The front matter belongs to no chapter. |
| Chapters.ExtractFromEmpty | rag_pdf_checker.py:139-151 | A PDF yields no chapter iff no page carries a marker. |
| Chapters.StepMarked | rag_pdf_checker.py:118-134 | A page with a marker closes the open chapter, if there is one, and opens a new one. |
| Chapters.StepUnmarked | rag_pdf_checker.py:135-137 | A page without a marker is appended to the open chapter's text. |
| Chapters.ScanToExtract | rag_pdf_checker.py:139-151 | Closing the open chapter after the last page gives the extracted chapters. |
| Chapters.ExtractChapters | rag_pdf_checker.py:101-151 | The page loop returns exactly the chapters of the extraction specification. |
| ChaptersV1.StartsIndex | rag_pdf_checker_v1.py:138-155 | Every page that carries a marker is listed as a start, with one start per page. |
| ChaptersV1.FindChapterStarts | rag_pdf_checker_v1.py:134-157 | The loop over pages, lines and patterns, with its two breaks, returns the starts of the specification. |
| ChaptersV1.Title | rag_pdf_checker_v1.py:114-115 | The title is at most 100 characters. |
| ChaptersV1.CollectPages | rag_pdf_checker_v1.py:106-109 | The inner loop collects the texts of the pages with 0-based index in [first, end). |
| ChaptersV1.CutChapters | rag_pdf_checker_v1.py:98-125 | The loop over the starts builds one chapter per start, as the specification `Cut` does. |
| ChaptersV1.ExtractChapters | rag_pdf_checker_v1.py:81-132 | `extract_chapters` returns the specification's chapters. |
| ChaptersV1.UnreadableIsEmpty | rag_pdf_checker_v1.py:129-132 | A PDF that cannot be read yields no chapters. |
| ChaptersV1.ChapterFromShape | rag_pdf_checker_v1.py:99-123 | Chapter i runs from its start page to the page before the next start, or to the last page. Its content is those pages joined by newlines. |
| ChaptersV1.ExtractAt | rag_pdf_checker_v1.py:98-125 | Chapter c lies within the PDF. Its first page carries its number, its content is its pages joined, and the next chapter starts right after it. |
| ChaptersV1.ExtractTiles | rag_pdf_checker_v1.py:81-132 | The chapters tile the pages from the first start to the last page. |
| ChaptersV1.MarkedPageOpensChapter | rag_pdf_checker_v1.py:138-151 | Every page that carries a marker opens a chapter. |
| DetectorV1.Detect | rag_pdf_checker_v1.py:339-397 | A finding names the pair's two chapters by their IDs. A call that raised yields no finding, because the exception is swallowed. |
| DetectorV1.ClaudeFencedReply | rag_pdf_checker_v1.py:372-380 | A Claude reply that is one "```json" block is decoded from the block's stripped body. |
| DetectorV1.OpenAiReplyVerbatim | rag_pdf_checker_v1.py:355 | An OpenAI reply is decoded as it is, fences included. |
| DetectorV1.InterimShape | rag_pdf_checker_v1.py:403-421 | The checkpoint is marked "in_progress" and its count equals the number of records. Every record reads back as its finding. |
| DetectorV1.VisitCountIs | rag_pdf_checker_v1.py:566-582 | The scheduler visits all n(n-1)/2 pairs. In test mode it stops after five, or fewer when there are fewer. |
| DetectorV1.CheckPair | rag_pdf_checker_v1.py:584-605 | One pair: the pause when due, the call, the 0.6 threshold, the checkpoint rewrite and the 2-second delay. The step is the specification step. |
| DetectorV1.CheckRow | rag_pdf_checker_v1.py:579-605 | The inner loop over j > i, with the test-mode stop, is the specification run. |
| DetectorV1.DetectAll | rag_pdf_checker_v1.py:563-610 | `_detect_all_contradictions` returns the kept findings and the event trace of the specification run over the visited pairs. |
| DetectorV1.StepFound | rag_pdf_checker_v1.py:591-592 | A step keeps its earlier findings and adds the pair's finding if the finding is kept. |
| DetectorV1.FoundFrom | rag_pdf_checker_v1.py:590-592 | Every kept finding is what the detector returned for a visited pair. |
| DetectorV1.FoundNamesChapters | rag_pdf_checker_v1.py:383-385 | Every kept finding names the two chapters of its pair by their IDs. |
| DetectorV1.AboveThreshold | rag_pdf_checker_v1.py:591 | Every kept finding has a confidence above 0.6. |
| DetectorV1.FoundGrows | rag_pdf_checker_v1.py:592 | Findings are never dropped: the findings after m pairs are a prefix of those after any later count. |
| DetectorV1.KeptIsFound | rag_pdf_checker_v1.py:589-598 | Every finding above the threshold is kept, whatever the other pairs do. |
| DetectorV1.PairEventsCalls | rag_pdf_checker_v1.py:590 | One pair's events call the model on that pair only. |
| DetectorV1.PairEventsSaves | rag_pdf_checker_v1.py:595-596 | One pair's events write the checkpoint once if a finding was kept, and never otherwise. |
| DetectorV1.PairEventsSleeps | rag_pdf_checker_v1.py:585-605 | One pair's events hold one 2-second delay, plus one pause if the pair waits first. |
| DetectorV1.RunCalls | rag_pdf_checker_v1.py:578-590 | The first m pairs are called in order, once each. |
| DetectorV1.CallsEveryPairOnce | rag_pdf_checker_v1.py:563-610 | The model is called once on each pair (i, j), i < j, in ascending order: n(n-1)/2 calls, or only the first five in test mode. |
| DetectorV1.StepSleeps | rag_pdf_checker_v1.py:585-605 | A step adds one delay, plus a pause when its call count is a positive multiple of ten. |
| DetectorV1.DelayCount | rag_pdf_checker_v1.py:605 | Every visited pair is followed by a 2-second delay, whatever its outcome. |
| DetectorV1.PauseCounts | rag_pdf_checker_v1.py:585-587 | A 60-second pause comes before the 11th, 21st, ... call, so m > 0 pairs make (m-1)/10 pauses. |
| DetectorV1.StepSaves | rag_pdf_checker_v1.py:592-596 | If the checkpoint writes so far are the snapshots of the findings, a step keeps them so. |
| DetectorV1.RunSaves | rag_pdf_checker_v1.py:592-596 | The checkpoint is rewritten once per kept finding, each time with the whole list so far. |
| DetectorV1.CheckpointsGrow | rag_pdf_checker_v1.py:403-421 | The x-th checkpoint write holds exactly the first x+1 findings, marked in progress, with a total of x+1. (See also line 596.) |
| ContradictionAnalyzer.SplitId | analyzers/contradiction.py:33-40 | A chapter ID splits into the part before its last "_" and the part after it. An ID without "_" is its own document, with no section. |
| ContradictionAnalyzer.SplitIdRejoin | analyzers/contradiction.py:33-40 | An ID with a "_" is its document, "_" and its section. |
| ContradictionAnalyzer.SplitChapterId | analyzers/contradiction.py:33-40 | For a chapter ID `hash8_number`, the prompt shows the hash prefix as the document and the number as the section. |
| ContradictionAnalyzer.DetectPair | analyzers/contradiction.py:116-137 | A raised call or an undecodable reply is an error, which `analyze` catches. A decoded reply gives `FromReply` of it. |
| ContradictionAnalyzer.Summarize | analyzers/contradiction.py:101-114 | The result is of type "contradiction", counts the findings, holds their dictionaries, and scores 1.0 when there is no finding. |
| ContradictionAnalyzer.CheckPair | analyzers/contradiction.py:84-99 | One pair: the sleeps due, the call, and the finding kept. An error loses only this pair. |
| ContradictionAnalyzer.CheckRow | analyzers/contradiction.py:83-99 | The inner loop over j > i is the specification run. |
| ContradictionAnalyzer.Analyze | analyzers/contradiction.py:74-114 | `analyze` returns the summary of the specification run over all pairs, together with its trace. |
| ContradictionAnalyzer.FoundFrom | analyzers/contradiction.py:94-96 | Every finding is what the detector returned for a visited pair. |
| ContradictionAnalyzer.FoundGrows | analyzers/contradiction.py:96 | Findings are never dropped. |
| ContradictionAnalyzer.DetectedIsFound | analyzers/contradiction.py:93-99 | Every finding the detector returns is kept, whatever the other pairs do. |
| ContradictionAnalyzer.FoundNamesChapters | analyzers/contradiction.py:128-130 | Every finding names the two chapters of its pair by their IDs. |
| ContradictionAnalyzer.PairEventsCalls | analyzers/contradiction.py:94 | One pair's events call the model on that pair only. |
| ContradictionAnalyzer.PairEventsDelays | analyzers/contradiction.py:87-88 | One pair's events hold one 2-second sleep, unless it is the first pair. |
| ContradictionAnalyzer.PairEventsPauses | analyzers/contradiction.py:89-91 | One pair's events hold a 60-second pause when its number, counted from 1, is a multiple of ten. |
| ContradictionAnalyzer.RunCalls | analyzers/contradiction.py:82-94 | After m pairs, the model has been called on those pairs, in order, once each. |
| ContradictionAnalyzer.RunDelays | analyzers/contradiction.py:87-88 | A 2-second sleep comes before every pair but the first. |
| ContradictionAnalyzer.RunPauses | analyzers/contradiction.py:89-91 | After m pairs there have been m / 10 pauses. |
| ContradictionAnalyzer.AnalyzeTrace | analyzers/contradiction.py:77-91 | `analyze` calls the model once on each of the n(n-1)/2 pairs in ascending order. It makes n(n-1)/2 - 1 short sleeps and (n(n-1)/2)/10 pauses. |
| ContradictionAnalyzer.ScoreIsMean | analyzers/contradiction.py:102-106 | With no finding the score is 1.0. Otherwise it is the mean confidence. |
| ContradictionAnalyzer.ScoreBounds | analyzers/contradiction.py:102-106 | Confidences within a range that holds 1.0 give a score within that range. |
| RedundancyAnalyzer.FromReply | analyzers/redundancy.py:155-166 | A finding exists iff `is_redundant` is true and the similarity, 0 when absent, exceeds 0.7. It carries the two segment IDs, and the defaults for missing keys: "" for the excerpts and the explanation, "unknown" for the type, "keep_both" for the recommendation. |
| RedundancyAnalyzer.DetectRedundancy | analyzers/redundancy.py:139-166 | A call that raised yields no finding. A decoded reply yields `FromReply` of it. Every finding is above the 0.7 threshold and names the two segments. |
| RedundancyAnalyzer.ToDict | analyzers/redundancy.py:168-178 | The dictionary has exactly the eight keys of `_redundancy_to_dict`. It has `section1_id`/`section2_id` and no `segment1_id`/`segment2_id` key. |
| RedundancyAnalyzer.DictRoundTrip | analyzers/redundancy.py:168-178 | Reading the dictionary back gives the finding back. |
| RedundancyAnalyzer.KeptIff | analyzers/redundancy.py:112-114 | The window at 500*w is kept iff w is below the kept count, so the kept windows are the first ones. |
| RedundancyAnalyzer.ChapterSegmentsPrefix | analyzers/redundancy.py:107-121 | A chapter's segments are its first kept windows, at 0, 500, 1000, .... A chapter has none iff its text is at most 200 characters. |
| RedundancyAnalyzer.WindowFields | analyzers/redundancy.py:112-121 | A segment holds the text from its start to min(start + 1000, length), which is 201 to 1000 characters, with its chapter's ID. |
| RedundancyAnalyzer.SplitChapter | analyzers/redundancy.py:112-121 | The inner loop appends exactly the chapter's segments. |
| RedundancyAnalyzer.CreateSegments | analyzers/redundancy.py:102-123 | `_create_segments` returns the segments of every chapter, in chapter order. |
| RedundancyAnalyzer.SetJaccard | analyzers/redundancy.py:131-137 | The similarity lies in [0, 1], and it is positive iff the two word sets share a word. |
| RedundancyAnalyzer.UnionCard | analyzers/redundancy.py:134-137 | The intersection is no larger than the union, and the union is non-empty once one set is non-empty. |
| RedundancyAnalyzer.JaccardSymmetric | analyzers/redundancy.py:125-137 | The quick check is symmetric in its two texts. |
| RedundancyAnalyzer.JaccardSame | analyzers/redundancy.py:125-137 | Texts with the same non-empty word set score 1.0. |
| RedundancyAnalyzer.PrefilterShares | analyzers/redundancy.py:84 | Only pairs that share a word pass the prefilter, so the model never sees the others. |
| RedundancyAnalyzer.Score | analyzers/redundancy.py:92-97 | No finding scores 1.0. With no more findings than comparisons, the score lies in [0, 1]. |
| RedundancyAnalyzer.RatioBounds | analyzers/redundancy.py:92 | At most n findings out of n comparisons give a ratio in [0, 1]. |
| RedundancyAnalyzer.Summarize | analyzers/redundancy.py:90-100 | The result is of type "redundancy", counts the findings, holds their dictionaries, and scores `1 - kept/max(comparisons, 1)`. |
| RedundancyAnalyzer.ComparePair | analyzers/redundancy.py:77-88 | One pair: skipped within a chapter, otherwise counted, prefiltered, asked, and kept above 0.7. The step is the specification step. |
| RedundancyAnalyzer.CompareRow | analyzers/redundancy.py:76-88 | The inner loop over j > i is the specification run. |
| RedundancyAnalyzer.CompareSegments | analyzers/redundancy.py:74-100 | The comparison loops return the summary and trace of the specification run over all pairs. |
| RedundancyAnalyzer.Analyze | analyzers/redundancy.py:64-100 | `analyze` segments the chapters, then returns the summary and trace of the run over all segment pairs. |
| RedundancyAnalyzer.AskedAscending | analyzers/redundancy.py:75-76 | The pairs the model is asked about come in ascending order. |
| RedundancyAnalyzer.RunComparisons | analyzers/redundancy.py:78-81 | After m pairs, the comparison count is the number of cross-chapter pairs among them. |
| RedundancyAnalyzer.RunCalls | analyzers/redundancy.py:78-85 | After m pairs, the model has been asked about exactly the cross-chapter pairs past the prefilter, in order. |
| RedundancyAnalyzer.RunBounds | analyzers/redundancy.py:81-87 | There are no more findings than calls, and no more calls than comparisons. |
| RedundancyAnalyzer.FoundFrom | analyzers/redundancy.py:84-87 | Every finding is a detection above 0.7 for a pair the model was asked about. |
| RedundancyAnalyzer.AnalyzeCounts | analyzers/redundancy.py:74-97 | `analyze` compares every cross-chapter pair of segments. It asks the model about exactly those past the prefilter, in ascending order, once each. It keeps no more findings than comparisons, and its score lies in [0, 1]. |
| RedundancyAnalyzer.FoundNamesSegments | analyzers/redundancy.py:85-87 | Every finding names two segments of different chapters by their IDs. (See also lines 157-158.) |
| Terminology.LowerAll | analyzers/terminology.py:244 | Holds each variation in lower case, position by position. |
| Terminology.MentionedToIff | analyzers/terminology.py:215-217 | A variation is recorded by the first m steps of the inner loop iff it is one of the first m variations and its lower form occurs in the lowered text. |
| Terminology.MappingTermsToIff | analyzers/terminology.py:214-217 | A variation is recorded by the first m concepts iff some concept among them lists it and its lower form occurs in the lowered text. |
| Terminology.ChapterTermsMappings | analyzers/terminology.py:211-217 | A table variation that no regex found is recorded for a chapter iff its lower form occurs in the chapter's lowered text. |
| Terminology.AddMentioned | analyzers/terminology.py:215-217 | The inner loop adds to the term set exactly the variations mentioned in the lowered text. |
| Terminology.ExtractChapterTerms | analyzers/terminology.py:210-227 | One chapter's term set is the specification set: table variations mentioned plus the regex finds. |
| Terminology.ExtractTerms | analyzers/terminology.py:205-231 | The dictionary built by the loop is the specification dictionary of all chapters. |
| Terminology.ChapterIds | rag_pdf_checker.py:65-67 | Holds every chapter's ID and nothing else. |
| Terminology.TermsOfKeys | analyzers/terminology.py:229 | The dictionary has distinct keys, exactly the chapters' IDs. |
| Terminology.TermsOfFind | analyzers/terminology.py:229 | A chapter whose ID no later chapter shares is looked up to its own term set; a later chapter with the same ID overwrites it. |
| Terminology.FirstIndex | analyzers/terminology.py:318-329 | Finds the first term from a position on with the wanted property, with none before it; `None` only when no term has it. |
| Terminology.Canonical | analyzers/terminology.py:315-331 | The result is one of the variations. If a preferred Hangul term is present, it is the first of those. Otherwise the first Hangul term, if there is one. Otherwise the first term with an upper-case initial. Otherwise the first variation. |
| Terminology.HighFrom | analyzers/terminology.py:341-344 | True iff some concept from k on is high-severity and one of the variations is one of its table terms, compared in lower case. |
| Terminology.Severity | analyzers/terminology.py:333-350 | "high" iff a high-severity concept lists one of the variations. "medium" iff not high and more than two variations. "low" iff neither. |
| Terminology.UsedTerms | analyzers/terminology.py:243-245 | Lists, each once, exactly the chapter's terms that are variations of the concept in lower case. |
| Terminology.UsageVariations | analyzers/terminology.py:248-250 | The variations gathered from the usage map are exactly the concept's variations used in some chapter. |
| Terminology.DetectConcept | analyzers/terminology.py:239-262 | A finding is made iff more than one variation is used. It lists each used variation once, names the canonical term of that list, maps each chapter to its used variations, and carries the severity of the used set and the concept's explanation. |
| Terminology.DetectPatterns | analyzers/terminology.py:233-264 | One result per concept, in table order, each as `DetectConcept` states; the findings are the results that are present, in that order. |
| Terminology.HighCount | analyzers/terminology.py:199 | At most the number of findings, and zero iff no finding has severity "high". |
| Terminology.CountIf | analyzers/terminology.py:368-377 | Never more than the number of findings. |
| Terminology.CountIfTo | analyzers/terminology.py:368-377 | Counts exactly the positions whose finding meets the condition. |
| Terminology.MixedCountSpec | analyzers/terminology.py:368-370 | Counts exactly the findings whose first variation holds both an ASCII character and a Hangul-or-later character. |
| Terminology.Recommendations | analyzers/terminology.py:360-382 | Corrected version. The urgent advice is given iff some finding is high. The mixed-language advice is given iff more than three findings mix scripts. The informal-term advice is given iff some finding uses an informal abbreviation. Nothing else is given. |
| Terminology.RecommendationsAsWritten | analyzers/terminology.py:360-382 | As written. Fails with `IndexError` iff some finding has no variations. Otherwise it gives the corrected advice. |
| Terminology.RecommendationsAgree | analyzers/terminology.py:368-370 | When every finding has a variation, the two versions agree. |
| Terminology.EmptyVariationsFail | analyzers/terminology.py:369-370 | A finding without variations makes the written version fail, while the corrected one gives no advice. (See also line 302.) |
| Terminology.TallySpec | analyzers/terminology.py:354-356 | The tally has distinct keys, exactly the canonical terms, and counts for each term the variations of all its findings. |
| Terminology.TallySize | analyzers/terminology.py:354-356 | The tally has one entry per canonical term. |
| Terminology.FirstFinding | analyzers/terminology.py:355-356 | The position of the first finding about a term, with no earlier one; the number of findings when there is none. |
| Terminology.TallyOrder | analyzers/terminology.py:354-356 | Terms found earlier come earlier in the tally. |
| Terminology.TallyTerms | analyzers/terminology.py:354-356 | The counting loop builds the specification tally. |
| Terminology.MostInconsistentTermsSpec | analyzers/terminology.py:352-358 | Lists min(5, number of canonical terms) distinct canonical terms, by descending number of variations. No term left out has more variations than one listed. Terms with as many variations keep the order of their first findings. |
| Terminology.MostInconsistentTermsOrder | analyzers/terminology.py:352-358 | Terms with as many variations are listed in the order of their first findings. |
| Terminology.FirstFindingFollowsTally | analyzers/terminology.py:354-356 | Of two distinct terms, the one tallied first was found first. |
| Terminology.ToDict | analyzers/terminology.py:384-392 | The dictionary has exactly the five keys and holds the finding's variations, canonical term, usage and severity. |
| Terminology.DictRoundTrip | analyzers/terminology.py:384-392 | Reading the dictionary back gives the finding: nothing is lost. |
| TerminologyAnalyzer.UsageFromOk | analyzers/terminology.py:298-299 | The usage map is built iff every example has both `chapter_id` and `term_used`; otherwise the failure is a `KeyError`. |
| TerminologyAnalyzer.UsageFromOkTo | analyzers/terminology.py:298-299 | The same for the first m examples. |
| TerminologyAnalyzer.UsageFromContents | analyzers/terminology.py:297-304 | A built usage map has exactly the chapters the examples name, each mapped to the terms of its examples, in order. |
| TerminologyAnalyzer.UsageFromContentsTo | analyzers/terminology.py:297-299 | The same for the first m examples. |
| TerminologyAnalyzer.UsageErrorStays | analyzers/terminology.py:298-299 | A `KeyError` on an example ends the loop: the whole result is that error. |
| TerminologyAnalyzer.TermsForAbsent | analyzers/terminology.py:297-299 | A chapter no example names gets no terms. |
| TerminologyAnalyzer.IncFrom | analyzers/terminology.py:296-307 | A finding is built iff its examples are complete. It then carries their usage map and the reply's `terms_found`, `recommended_term`, `severity` and `explanation`, with the defaults `[]`, `""`, `"medium"` and `""`. |
| TerminologyAnalyzer.IncsFrom | analyzers/terminology.py:295-309 | Succeeds iff every entry does, and then holds one finding per entry, in order. |
| TerminologyAnalyzer.PairFindings | analyzers/terminology.py:266-313 | A raised call gives no findings. A decoded reply gives its entries' findings, or none when one entry fails, because the exception handler drops them all. |
| TerminologyAnalyzer.MissingTermsFound | analyzers/terminology.py:302 | An entry without `terms_found` gives a finding without variations, and the recommendations as written then fail with `IndexError`. (See also line 369.) |
| TerminologyAnalyzer.CollectUsage | analyzers/terminology.py:297-299 | The example loop computes the specification usage map or its `KeyError`. |
| TerminologyAnalyzer.IncsErrorStays | analyzers/terminology.py:295-307 | An error on an entry ends the loop: the whole result is that error. |
| TerminologyAnalyzer.CollectInconsistencies | analyzers/terminology.py:294-309 | The entry loop computes the specification findings or the first error. |
| TerminologyAnalyzer.LlmFindingsNext | analyzers/terminology.py:178-181 | One more pair adds that pair's findings after those gathered so far. |
| TerminologyAnalyzer.AskPair | analyzers/terminology.py:178-182 | One call, on the next pair in order; its findings are appended and the pair count goes up by one. |
| TerminologyAnalyzer.PairRow | analyzers/terminology.py:174-182 | Row i's inner loop asks the row's pairs in order and stops once ten pairs are done. The calls stay a prefix of all pairs, and the findings are those of that prefix. |
| TerminologyAnalyzer.LlmPairs | analyzers/terminology.py:172-185 | The model is asked about the first min(10, number of pairs) pairs (i, j), i < j, in order, and the findings are theirs, in that order. |
| TerminologyAnalyzer.CallCount | analyzers/terminology.py:175-184 | Ten calls are made when there are five chapters or more; below that, every one of the n(n-1)/2 pairs is asked. |
| TerminologyAnalyzer.ConsistencyScore | analyzers/terminology.py:190 | At most 1. Exactly 1 iff there are no findings. Not negative while the findings do not outnumber the terms. |
| TerminologyAnalyzer.NegativeScore | analyzers/terminology.py:190 | More findings than terms make the score negative: two findings and one term give -1. |
| TerminologyAnalyzer.TotalTermsZero | analyzers/terminology.py:188 | The total is zero iff every chapter has an empty term set. |
| TerminologyAnalyzer.Summarize | analyzers/terminology.py:192-203 | The type is "terminology" and the issue count is the number of findings. Details hold one dictionary per finding, each reading back to that finding. The score is at most 1, and exactly 1 iff there are no findings. |
| TerminologyAnalyzer.Analyze | analyzers/terminology.py:157-203 | Gives one pattern result per concept of the table, as `DetectConcept` states, on the chapters' extracted terms. It makes exactly the first min(10, number of pairs) pair calls, in order. The result is the summary of the pattern findings followed by the model's findings, scored against the total term count. |
| TerminologyAnalyzer.UsageFrom | analyzers/terminology.py:297-299 | The `chapters_usage` map of one model finding, or `KeyError` for an example without `chapter_id` or `term_used`. `TerminologyAnalyzer.UsageFromOk` and `TerminologyAnalyzer.UsageFromContents` state it. |
| TerminologyAnalyzer.TermsFor | analyzers/terminology.py:297-299 | The terms the examples list for one chapter, in order. |
| TerminologyAnalyzer.LlmFindings | analyzers/terminology.py:172-185 | The model findings of the first m pairs. `TerminologyAnalyzer.LlmPairs` and `TerminologyAnalyzer.CallCount` state the pair cap, and `TerminologyAnalyzer.CollectInconsistencies` is proved equal to it. |
| TerminologyAnalyzer.SummaryOf | analyzers/terminology.py:197-202 | The summary: the count, the high-severity count, the most inconsistent terms and the corrected recommendations. |
| CodeAnalyzer.Dedent | analyzers/code.py:152 | A line starting with four spaces loses exactly those four; any other non-empty line loses its first character; an empty line stays empty. |
| CodeAnalyzer.FencedBlocks | analyzers/code.py:131-142 | One block per fenced match. |
| CodeAnalyzer.IndentedBlocks | analyzers/code.py:148-161 | One block per indented match. |
| CodeAnalyzer.BlocksNumbered | analyzers/code.py:121-163 | Fenced blocks come first, then indented ones. All are numbered 0, 1, … and carry the chapter's ID. A fenced block holds its stripped body, and its language is "unknown" exactly when none was given. Indented blocks are "unknown". |
| CodeAnalyzer.ExtractCodeBlocks | analyzers/code.py:121-163 | The loops build the specification block list. |
| CodeAnalyzer.SkipSpace | analyzers/code.py:193 | Skips exactly the run of whitespace (`\s+`) at the position. |
| CodeAnalyzer.WordEnd | analyzers/code.py:193 | Ends exactly the run of word characters (`\w+`) at the position. |
| CodeAnalyzer.WordAfter | analyzers/code.py:193 | Captures the non-empty word after at least one whitespace character, and fails iff there is no whitespace or no word after it. |
| CodeAnalyzer.WordAfterRuns | analyzers/code.py:193 | Whitespace followed by a word that nothing continues makes `\s+(\w+)` capture exactly that word. |
| CodeAnalyzer.ImportCapture | analyzers/code.py:193-195 | A capture is only made on a line that starts with `from` or `import`. |
| CodeAnalyzer.ImportCaptureOf | analyzers/code.py:193-195 | For every keyword `import` or `from`, every non-empty run of whitespace, every non-empty word and every rest not continuing the word, the line `keyword + spaces + word + rest` captures exactly the word. |
| CodeAnalyzer.ImportCaptureDotted | analyzers/code.py:193-195 | `import os.path` captures `os`. |
| CodeAnalyzer.ImportCaptureFrom | analyzers/code.py:193-195 | `from re import sub` captures `re`. |
| CodeAnalyzer.ImportCaptureIndented | analyzers/code.py:193 | An indented import is not captured, because `re.match` anchors at column 0. |
| CodeAnalyzer.ImportsNext | analyzers/code.py:194-196 | Line n adds its capture to the imported set. |
| CodeAnalyzer.UsedNext | analyzers/code.py:199-201 | Line n adds the common modules it uses that are not imported by then, counting its own import. |
| CodeAnalyzer.ImportsGrow | analyzers/code.py:191-196 | The imported set only grows along the lines. |
| CodeAnalyzer.UsedMinusImported | analyzers/code.py:203 | `used - imported` is exactly the common modules some line uses and no line imports. |
| CodeAnalyzer.AddUsed | analyzers/code.py:199-201 | The module loop adds exactly the line's uses of modules not yet imported. |
| CodeAnalyzer.ScanLines | analyzers/code.py:188-201 | The line loop computes the specification sets of imported and used modules. |
| CodeAnalyzer.ImportErrors | analyzers/code.py:203-213 | One import error per missing module, in the given order. |
| CodeAnalyzer.PyIndex | analyzers/code.py:176 | Python list indexing: succeeds iff -len ≤ i < len, gives the element at a non-negative index, and otherwise raises `IndexError`. (See also line 233.) |
| CodeAnalyzer.ExcerptAsWritten | analyzers/code.py:233 | As written. Without a line, or with line 0, the excerpt is the first 100 characters. Otherwise it is the Python index `line - 1` into the block's lines, which raises `IndexError` past the end and counts from the end for a negative line. |
| CodeAnalyzer.Excerpt | analyzers/code.py:233 | Corrected version. A line within 1 … number of lines gives that line; anything else gives the first 100 characters. |
| CodeAnalyzer.ExcerptAgrees | analyzers/code.py:233 | The two versions agree whenever the line is absent, 0, or within the block. |
| CodeAnalyzer.ExcerptPastEnd | analyzers/code.py:233 | Line 2 of the one-line block `x = 1` raises `IndexError` as written; the corrected excerpt is the block. |
| CodeAnalyzer.SyntaxErrors | analyzers/code.py:169-182 | Code that parses gives no error. A parse error gives exactly one "syntax" error of severity "error" for the block. The only failure is `IndexError` from the excerpt. |
| CodeAnalyzer.StaticAnalysis | analyzers/code.py:165-215 | Gives the syntax errors, or their failure, followed by one import error per missing module, each once. |
| CodeAnalyzer.FromData | analyzers/code.py:230-239 | The error carries the block's chapter and index and the reply's line. The excerpt is the corrected one. The type, severity, description and fix come from the reply, with the defaults "unknown", "warning", "" and "". |
| CodeAnalyzer.LlmErrors | analyzers/code.py:217-241 | A raised call is a failure that escapes, and so is an undecodable reply. A decoded reply gives one error per entry, in order. |
| CodeAnalyzer.SeverityCount | analyzers/code.py:108-109 | Never more than the number of errors. |
| CodeAnalyzer.Quality | analyzers/code.py:111 | Lies in [0, 1]. Exactly 1 iff there are no errors and no warnings. Zero from ten errors on. |
| CodeAnalyzer.QualityMonotone | analyzers/code.py:111 | More errors or warnings never raise the score. |
| CodeAnalyzer.ToDict | analyzers/code.py:243-254 | The dictionary has exactly the eight keys, and a missing line number is `None`. |
| CodeAnalyzer.DictRoundTrip | analyzers/code.py:243-254 | Reading the dictionary back gives the error: nothing is lost. |
| CodeAnalyzer.Summarize | analyzers/code.py:107-119 | The type is "code". There is one detail per error, each reading back to that error. The score is the quality of the error and warning counts. |
| CodeAnalyzer.ChapterTasks | analyzers/code.py:94-97 | One task per block of the chapter. |
| CodeAnalyzer.TasksNext | analyzers/code.py:92-97 | Chapter i's tasks follow those of the chapters before it. |
| CodeAnalyzer.TasksPrefix | analyzers/code.py:92-97 | The tasks of the first i chapters are a prefix of all tasks. |
| CodeAnalyzer.AnalyzeBlock | analyzers/code.py:98-105 | A Python block gives its static result and then the model's errors. Any other block gives the model's errors. The first failure escapes, and it is a model, JSON or index failure. |
| CodeAnalyzer.OksConcat | analyzers/code.py:101-105 | The errors of two runs of blocks are those of each, concatenated. |
| CodeAnalyzer.AnalyzeBlocks | analyzers/code.py:97-105 | Each block visited has its specified result. The loop stops at the first failure and returns it. Otherwise every block is visited and the errors are all of theirs, in order. |
| CodeAnalyzer.ChapterStep | analyzers/code.py:92-105 | Appending a chapter's visited blocks keeps every result specified and the stop at the first failure. |
| CodeAnalyzer.AnalyzeChapter | analyzers/code.py:92-105 | As `AnalyzeBlocks`, on the chapter's blocks. |
| CodeAnalyzer.Analyze | analyzers/code.py:85-119 | Visits the blocks of all chapters in order, each with its specified result. It stops at the first failure, which escapes. Otherwise the result summarises the errors of every block, in order. |
| CodeAnalyzer.FencedBlock | analyzers/code.py:131-142 | A fenced block: its language, or "unknown", and its stripped code. |
| CodeAnalyzer.IndentedCode | analyzers/code.py:149-158 | An indented block's code: every line dedented, rejoined and stripped. `CodeAnalyzer.Dedent` states the dedent. |
| CodeAnalyzer.IndentedBlock | analyzers/code.py:148-161 | An indented block: language "unknown" and the dedented code. |
| CodeAnalyzer.Blocks | analyzers/code.py:121-163 | The fenced blocks numbered from 0, then the indented ones numbered on. `CodeAnalyzer.BlocksNumbered` states it. |
| CodeAnalyzer.IsPython | analyzers/code.py:99 | Static analysis applies to the languages "python" and "py", case-insensitively. |
| CodeAnalyzer.Uses | analyzers/code.py:200 | A line uses a module when it contains the module's name followed by ".". |
| CodeAnalyzer.ImportsTo | analyzers/code.py:191-196 | The modules captured by the first n lines. `CodeAnalyzer.ImportsNext` and `CodeAnalyzer.ImportsGrow` state it. |
| CodeAnalyzer.UsedTo | analyzers/code.py:191-201 | The modules used before their import in the first n lines. `CodeAnalyzer.UsedNext` states it. |
| CodeAnalyzer.Missing | analyzers/code.py:203 | A listed module used on some line and imported on none. `CodeAnalyzer.UsedMinusImported` proves it equals the loop's set difference. |
| CodeAnalyzer.LineImports | analyzers/code.py:193-196 | The module one line imports, if any. |
| CodeAnalyzer.LineUses | analyzers/code.py:199-201 | The listed modules one line uses that are not imported yet. |
| CodeAnalyzer.ImportError | analyzers/code.py:204-213 | The error for a missing import: type "import", severity "error", no line. `CodeAnalyzer.ImportErrors` states the list. |
| CodeAnalyzer.Tasks | analyzers/code.py:92-97 | Every block of every chapter, in visiting order. `CodeAnalyzer.TasksNext` and `CodeAnalyzer.TasksPrefix` state it. |
| CodeAnalyzer.IsWordChar | analyzers/code.py:193 | A character the `\w` of the import pattern matches: ASCII letters, digits and "_". |
| TheoryAnalyzer.FlattenMembers | analyzers/theory.py:59-60 | A standard is in the flattened list iff some category lists it. |
| TheoryAnalyzer.StandardsList | analyzers/theory.py:57-60 | The loop builds the categories' items concatenated in order. |
| TheoryAnalyzer.StandardsListed | analyzers/theory.py:23-49 | The table lists 25 standards, from "Single Responsibility Principle" to "Microservices". |
| TheoryAnalyzer.FromData | analyzers/theory.py:146-153 | The deviation carries the chapter's ID and the reply's fields, with the defaults "", "unknown", "", "minor" and "". |
| TheoryAnalyzer.ScoreOf | analyzers/theory.py:137-155 | A decoded reply gives its `theory_score`, or 0.8 when it has none. A reply that does not parse gives 0.8. |
| TheoryAnalyzer.AnalyzeChapter | analyzers/theory.py:125-158 | Fails iff the model call raised, and the failure escapes. Otherwise every deviation names the chapter and the score is the reply's score. |
| TheoryAnalyzer.ChapterReply | analyzers/theory.py:137-158 | A reply that does not parse gives no deviations, score 0.8 and no positives. A decoded reply gives one deviation per entry, in order, and its score and positives. |
| TheoryAnalyzer.Extend | analyzers/theory.py:107-110 | The running totals fail iff they had failed or the chapter failed. Otherwise the chapter's score is appended. |
| TheoryAnalyzer.Gather | analyzers/theory.py:105-110 | A successful run holds one score per chapter. |
| TheoryAnalyzer.GatherNext | analyzers/theory.py:105-110 | Chapter i extends the totals of the chapters before it. |
| TheoryAnalyzer.GatherFails | analyzers/theory.py:105-110 | The run fails iff some chapter fails. |
| TheoryAnalyzer.GatherScores | analyzers/theory.py:105-110 | In a successful run, score k is chapter k's score. |
| TheoryAnalyzer.CallFailures | analyzers/theory.py:105-135 | The run fails iff some model call raised, and then with the model's failure. |
| TheoryAnalyzer.GatherError | analyzers/theory.py:105-110 | If chapters only fail with the model's failure, so does the run. |
| TheoryAnalyzer.ToDict | analyzers/theory.py:160-169 | The dictionary has exactly the six keys. |
| TheoryAnalyzer.DictRoundTrip | analyzers/theory.py:160-169 | Reading the dictionary back gives the deviation: nothing is lost. |
| TheoryAnalyzer.Summarize | analyzers/theory.py:112-123 | The type is "theory". There is one detail per deviation, each reading back to it. The score is the mean of the chapter scores, and 0 for no chapters. |
| TheoryAnalyzer.ConfidenceBounds | analyzers/theory.py:113 | When every chapter score lies in [0, 1], so does the run's score. |
| TheoryAnalyzer.Analyze | analyzers/theory.py:97-123 | A failed chapter's failure escapes. Otherwise the result summarises all chapters' deviations and scores. |
| TheoryAnalyzer.GatherErrStays | analyzers/theory.py:105-110 | Once a chapter has failed, the run's result is that failure. |
| TheoryAnalyzer.Flatten | analyzers/theory.py:57-60 | The standards of every category, category after category. `TheoryAnalyzer.FlattenMembers` and `TheoryAnalyzer.StandardsList` state it. |
| TheoryAnalyzer.ChapterOf | analyzers/theory.py:105-107 | One chapter's analysis, on the model's reply to that chapter. |
| FlowAnalyzer.ConceptSet | analyzers/flow.py:115-121 | A raised call gives no concepts. A decoded reply gives the set of its concepts. |
| FlowAnalyzer.Index | analyzers/flow.py:118-121 | The last element's key is always present. |
| FlowAnalyzer.IndexKeys | analyzers/flow.py:105-121 | The keys are exactly the elements' keys. |
| FlowAnalyzer.IndexLookup | analyzers/flow.py:118-121 | An element whose key no later element shares is looked up to its own value; a later one overwrites it. |
| FlowAnalyzer.ConceptsLookup | analyzers/flow.py:101-123 | The map holds every chapter's ID and nothing else. A chapter whose ID no later chapter shares maps to the concepts of its own reply. |
| FlowAnalyzer.ExtractConcepts | analyzers/flow.py:101-123 | The loop builds the specification concept map. |
| FlowAnalyzer.ShownConcepts | analyzers/flow.py:130 | At most ten concepts are shown, all of them the chapter's, and all of them when there are at most ten. |
| FlowAnalyzer.BuildSummary | analyzers/flow.py:125-137 | One block per chapter, joined by newlines. Block i names chapter i + 1 and its ID, shows at most ten of its concepts and previews its text. |
| FlowAnalyzer.IssueFrom | analyzers/flow.py:82-88 | An issue is built iff `chapter_id`, `issue_type`, `description` and `severity` are all present, and it then carries them, with `missing_concepts` defaulting to `[]`. A missing key gives a `KeyError` naming the first one missing, in that order. |
| FlowAnalyzer.IssuesFromOk | analyzers/flow.py:81-88 | Succeeds iff every entry does, and then holds one issue per entry, in order. |
| FlowAnalyzer.IssuesFromErr | analyzers/flow.py:81-88 | The first failing entry's error is the loop's error. |
| FlowAnalyzer.ToDict | analyzers/flow.py:139-147 | The dictionary has exactly the five keys. |
| FlowAnalyzer.DictRoundTrip | analyzers/flow.py:139-147 | Reading the dictionary back gives the issue: nothing is lost. |
| FlowAnalyzer.FlowResult | analyzers/flow.py:76-99 | A raised call, a reply that does not parse, or an entry missing a key is a failure that escapes. A decoded reply succeeds iff its entries all map. The type is then "flow", the score is `overall_flow_score` (default 0.7), and there is one detail per issue, each reading back to it. |
| FlowAnalyzer.IssuesErrorKey | analyzers/flow.py:83-87 | The entry loop can only fail with a `KeyError` on one of the four required keys. |
| FlowAnalyzer.MapIssues | analyzers/flow.py:80-88 | The loop computes the specification issues or the first error. |
| FlowAnalyzer.IssuesErrStays | analyzers/flow.py:81-88 | Once an entry has failed, the loop's result is that error. |
| FlowAnalyzer.Analyze | analyzers/flow.py:63-99 | Builds the summary from the chapters and their extracted concepts, one block per chapter, and the result is the flow result of the model's reply to that summary. |
| FlowAnalyzer.ConceptsOfChapter | analyzers/flow.py:115-121 | One chapter's concepts, the empty set when its call or parse fails. |
| FlowAnalyzer.ConceptsOf | analyzers/flow.py:101-123 | The concept dictionary, one entry per chapter ID. `FlowAnalyzer.ConceptsLookup` states it, and `FlowAnalyzer.ExtractConcepts` is proved equal to it. |
| FlowAnalyzer.ConceptsFor | analyzers/flow.py:130 | A chapter's concepts, empty when absent. |
| FlowAnalyzer.Block | analyzers/flow.py:131-135 | A chapter's summary block: its number, ID, shown concepts and a 200-character preview. `FlowAnalyzer.ShownConcepts` states the concepts shown. |
| FlowAnalyzer.IssuesFrom | analyzers/flow.py:80-88 | The issues mapped in order, the first incomplete entry raising. `FlowAnalyzer.IssuesFromOk`, `FlowAnalyzer.IssuesFromErr` and `FlowAnalyzer.IssuesErrorKey` state it. |
| Quality.Scope | rag_pdf_checker.py:260-262 | In test mode the first min(3, n) chapters are analysed; otherwise all of them. Either way, a prefix of the chapters. |
| Quality.InputFor | rag_pdf_checker.py:273-279 | The redundancy analyzer in test mode gets the first min(2, n) chapters; every other analyzer gets all chapters in scope. Either way, a prefix. |
| Quality.CollectNext | rag_pdf_checker.py:268-287 | One more kind extends the results of the kinds before it by one loop pass. |
| Quality.CollectContents | rag_pdf_checker.py:264-287 | A successful loop keeps exactly the kinds asked for that are registered. Each kept kind's findings and score are those of its analyzer's result, with terminology's findings taken from `inconsistencies`. |
| Quality.CollectFails | rag_pdf_checker.py:268-279 | The loop fails iff the analyzer of some registered kind asked for raises; nothing catches it. |
| Quality.CollectOrder | rag_pdf_checker.py:268-287 | Distinct registered kinds that all succeed are kept in exactly the order asked. |
| Quality.DefaultRunsAll | rag_pdf_checker.py:233-255 | With no kinds given, all six analyzers run, in registry order. |
| Quality.ScoreList | rag_pdf_checker.py:293 | One score per kept kind. |
| Quality.OverallBounds | rag_pdf_checker.py:293 | Subscores in [0, 1] give an overall score in [0, 1]; no subscore gives 0.0. |
| Quality.Assessment | rag_pdf_checker.py:369-382 | The label is one of "Excellent", "Good", "Fair", "Needs Improvement" and "Poor". |
| Quality.AssessmentMonotone | rag_pdf_checker.py:373-382 | A higher score never earns a worse label. "Excellent" iff the score is at least 0.9; "Poor" iff it is below 0.6. |
| Quality.TotalCountsEach | rag_pdf_checker.py:328 | Every kind's findings are counted in the total. |
| Quality.TotalZero | rag_pdf_checker.py:328 | When no kind has findings, the total is zero. |
| Quality.CountWhere | rag_pdf_checker.py:341-359 | Never more than the number of findings. |
| Quality.Insights | rag_pdf_checker.py:333-365 | Each insight appears exactly when its condition holds: the contradiction count when there are contradictions; the high-severity flow count, the syntax-error count and the critical theory count when positive; for terminology findings, the high-severity count when positive, else the number of variations. No other line appears, there are at most five, and at least one whenever terminology has findings. |
| SummaryLines.InsightLines | rag_pdf_checker.py:333-365 | The same, over the counts: in the fixed order contradictions, flow, code, theory, terminology, each line is present iff its count condition holds, and the terminology line is the high-severity one iff that count is positive. |
| SummaryLines.Selected | rag_pdf_checker.py:333-365 | The lines kept from a list of candidates, in order: at most as many as there are candidates, and only candidates. |
| SummaryLines.SelectedIff | rag_pdf_checker.py:333-365 | Among distinct candidates, a candidate is kept exactly when its condition holds. |
| Quality.Text | rag_pdf_checker.py:336-363 | The text of each insight line, with its count written in decimal. |
| Quality.LinesDistinct | rag_pdf_checker.py:336-363 | Lines of two different kinds never have the same text, whatever their counts. |
| Quality.TextInjective | rag_pdf_checker.py:336-363 | Different insights have different texts, so the summary's text lines say exactly which insight, and which count, each one reports. |
| Quality.FlowHigh | rag_pdf_checker.py:341 | The number of flow findings whose severity is "high". |
| Quality.SyntaxErrors | rag_pdf_checker.py:347 | The number of code findings whose error type is "syntax". |
| Quality.CriticalDeviations | rag_pdf_checker.py:353 | The number of theory findings whose severity is "critical". |
| Quality.TermsHigh | rag_pdf_checker.py:359 | The number of terminology findings whose severity is "high". |
| Quality.Summarize | rag_pdf_checker.py:324-367 | `total_issues` is the total of all kinds' findings, `issues_by_type` has exactly the kept kinds, each with its number of findings, the assessment is the label of the overall score (one of the five), and `key_insights` is the text of each of `Quality.Insights`' lines, in order. |
| Quality.ReportShape | rag_pdf_checker.py:243-322 | A report lists the kinds asked for, whether or not they are registered. Its chapter count is that of the scope. It has a section and a subscore for exactly the registered kinds asked for. Its assessment is that of its overall score, and `issues_by_type` has exactly its sections' kinds. |
| Quality.UnknownKindsOnly | rag_pdf_checker.py:268-269 | Kinds none of which is registered run nothing. The report then has no section, overall score 0.0, assessment "Poor" and no issues. (See also lines 293, 369-382.) |
| Quality.NoMembers | rag_pdf_checker.py:293 | A sequence without members is empty. |
| Quality.RunKind | rag_pdf_checker.py:269-287 | One loop pass computes the specification step. |
| Quality.Check | rag_pdf_checker.py:243-322 | `check` computes the specification report, or the failure of the first analyzer that raises. |
| Quality.CollectErrStays | rag_pdf_checker.py:268-279 | Once an analyzer raises, the rest of the loop is never reached. |
| Quality.Findings | rag_pdf_checker.py:282-286 | The details stored for a result: terminology's `inconsistencies` list, the list itself for the others. |
| Quality.Record | rag_pdf_checker.py:282-287 | Storing one result and its subscore under its kind. |
| Quality.RunOne | rag_pdf_checker.py:273-279 | Running one kind on its input. `Quality.InputFor` states the input. |
| Quality.Step | rag_pdf_checker.py:268-287 | One turn of the loop: an unregistered kind is skipped. `Quality.CollectNext` states it. |
| Quality.Collect | rag_pdf_checker.py:268-290 | The results and subscores after the given kinds. `Quality.CollectContents`, `Quality.CollectOrder` and `Quality.CollectFails` state it. |
| Quality.Overall | rag_pdf_checker.py:293 | The mean of the subscores, 0.0 when none ran. `Quality.OverallBounds` states it. |
| Quality.TotalIssues | rag_pdf_checker.py:328 | The sum of the detail lengths. `Quality.TotalCountsEach` and `Quality.TotalZero` state it. |
| Quality.Rank | rag_pdf_checker.py:369-382 | The position of a verdict, 0 for "Excellent". `Quality.AssessmentMonotone` uses it. |
| Quality.FindingsOf | rag_pdf_checker.py:309-320 | A kind's findings, empty when it did not run. |
| Quality.Section | rag_pdf_checker.py:309-320 | A report field is set only for a kind that ran. |
| Quality.ReportOf | rag_pdf_checker.py:299-320 | The report built from the collected results. `Quality.ReportShape` states it. |
| Quality.CheckResult | rag_pdf_checker.py:243-322 | What `check` returns, or the exception an analyzer raised. `Quality.Check` is proved equal to it, and `Quality.DefaultRunsAll` and `Quality.UnknownKindsOnly` state it. |
| ReportGenerator.BucketOf | rag_pdf_checker.py:587 | Finds the bucket whose name the key's value is, or reports that none matches. (See also lines 653, 688, 722.) |
| ReportGenerator.Grouped | rag_pdf_checker.py:584-587 | A successful grouping has one list per bucket. (See also lines 650-653, 685-688, 719-722.) |
| ReportGenerator.GroupedOk | rag_pdf_checker.py:587 | Grouping succeeds iff every item's key names a bucket; otherwise `by_severity[severity]` raises `KeyError`. (See also lines 653, 688, 722.) |
| ReportGenerator.GroupedFilters | rag_pdf_checker.py:584-587 | With distinct bucket names, each bucket holds exactly the items with its key, in input order. |
| ReportGenerator.SumLensAppend | rag_pdf_checker.py:587 | Appending to one bucket adds one to the total. |
| ReportGenerator.SumLensEmpty | rag_pdf_checker.py:584 | Fresh buckets hold nothing. |
| ReportGenerator.GroupedKeepsAll | rag_pdf_checker.py:584-603 | The buckets together hold every item exactly once, so a section lists each finding once. |
| ReportGenerator.GroupBySeverity | rag_pdf_checker.py:584-587 | The bucketing loop computes the specification grouping or its `KeyError`. (See also lines 650-653, 685-688, 719-722.) |
| ReportGenerator.GroupedErrStays | rag_pdf_checker.py:585-587 | Once an item raises, the rest of the loop is never reached. |
| ReportGenerator.CodeSectionTotal | rag_pdf_checker.py:650-653 | The code section never raises, because every item becomes an error or a warning. |
| ReportGenerator.FlowSectionRaises | rag_pdf_checker.py:584-587 | A flow issue whose severity is not high, medium or low makes the flow section raise `KeyError` on that severity. |
| ReportGenerator.DropFirstPart | rag_pdf_checker.py:762-763 | Joining all split parts but the first gives the text after the first `_`. |
| ReportGenerator.ChapterInfo | rag_pdf_checker.py:751-772 | Without a map, or for an ID not in it, the ID itself. Otherwise the readable file name followed by " (Chapter n)". |
| ReportGenerator.ChapterInfoDistinct | rag_pdf_checker.py:751-772 | Two chapters of one file with different numbers get different labels. |
| ReportGenerator.LastBelow | rag_pdf_checker.py:630 | Finds the last occurrence starting below k, with none after it; `None` only when there is none. |
| ReportGenerator.LastOccurrence | rag_pdf_checker.py:630 | An occurrence with none after it below k is the one found. |
| ReportGenerator.SegmentIdParts | rag_pdf_checker.py:622-630 | A segment ID built as the redundancy analyzer builds it splits back into its chapter ID and its window number. |
| ReportGenerator.SegmentChapterPart | rag_pdf_checker.py:622-623 | The part before `_seg` is the chapter ID, when that ID holds no `_seg`. |
| ReportGenerator.SegmentWindowPart | rag_pdf_checker.py:630 | The part after the last `_seg` is the window number. |
| ReportGenerator.SegmentKeysMissing | rag_pdf_checker.py:618-626 | As written. A redundancy record never has `segment1_id` or `segment2_id`, so the section reads two empty IDs and an empty chapter. |
| ReportGenerator.SectionKeysFound | analyzers/redundancy.py:168-178 | Corrected version. Reading `section1_id` and `section2_id` gets back the segment IDs, and from them the chapter and the window. |
| ReportGenerator.ScoreBands | rag_pdf_checker.py:510-526 | The colour and the emoji follow the same bands. Green iff "Excellent"; yellow iff "Good" or "Fair"; red iff "Needs Improvement" or "Poor". (See also lines 373-382.) |
| ReportGenerator.ColorMonotone | rag_pdf_checker.py:510-517 | A higher score never gets a worse colour. |
| ReportGenerator.SeverityKey | rag_pdf_checker.py:586 | The bucket key of a flow, theory or terminology item: its severity, or the section's default. |
| ReportGenerator.CodeKey | rag_pdf_checker.py:652 | The code section files syntax errors as errors and the rest as warnings. `ReportGenerator.CodeSectionTotal` states it. |
| ReportGenerator.Filter | rag_pdf_checker.py:584-594 | The items one bucket should hold, in input order. `ReportGenerator.GroupedFilters` states it. |
| ReportGenerator.Readable | rag_pdf_checker.py:757-765 | The file name without ".pdf" and without its part up to the first "_". `ReportGenerator.DropFirstPart` and `ReportGenerator.ChapterInfo` state it. |
| ReportGenerator.ChapterPart | rag_pdf_checker.py:622-623 | A segment ID's part before the first "_seg". `ReportGenerator.SegmentChapterPart` states it. |
| ReportGenerator.WindowPart | rag_pdf_checker.py:630 | A segment ID's part after the last "_seg". `ReportGenerator.SegmentWindowPart` states it. |
| ReportGenerator.SectionIdsAsWritten | rag_pdf_checker.py:618-619 | As written, the report reads `segment1_id` and `segment2_id`. `ReportGenerator.SegmentKeysMissing` shows they are never there. |
| ReportGenerator.SectionIds | analyzers/redundancy.py:170-172 | Corrected, the report reads `section1_id` and `section2_id`. `ReportGenerator.SectionKeysFound` shows they hold the IDs. |
| ReportGenerator.SimilarityAsWritten | rag_pdf_checker.py:631 | As written, the report reads `similarity`, default 0. |
| ReportGenerator.SimilarityKeyMissing | rag_pdf_checker.py:631 | A redundancy dictionary has no `similarity` key, so a kept finding, above 0.7, is shown with similarity 0. |
| ReportGenerator.Similarity | analyzers/redundancy.py:175 | Corrected, the report reads `similarity_score`. |
| ReportGenerator.SimilarityKeyFound | analyzers/redundancy.py:175 | Reading `similarity_score` gives back the finding's similarity. |
| ReportGenerator.FlowTypeAsWritten | rag_pdf_checker.py:600 | As written, the flow section reads `type`, default "unknown". |
| ReportGenerator.FlowTypeKeyMissing | rag_pdf_checker.py:600 | A flow issue's dictionary has no `type` key, so every issue is shown with type "unknown", whatever its own type is. |
| ReportGenerator.FlowType | analyzers/flow.py:143 | Corrected, the flow section reads `issue_type`. |
| ReportGenerator.FlowTypeKeyFound | analyzers/flow.py:143 | Reading `issue_type` gives back the issue's type. |
| ReportGenerator.CodeMessageAsWritten | rag_pdf_checker.py:668 | As written, the code section reads `message`, default "". |
| ReportGenerator.CodeMessageKeyMissing | rag_pdf_checker.py:668 | A code error's dictionary has no `message` key, so every error is shown with an empty message, whatever its description is. |
| ReportGenerator.CodeMessage | analyzers/code.py:251 | Corrected, the code section reads `description`. |
| ReportGenerator.CodeMessageKeyFound | analyzers/code.py:251 | Reading `description` gives back the error's description. |
| ReportGenerator.ScoreColor | rag_pdf_checker.py:510-517 | Green from 0.9, yellow from 0.7, red below. `ReportGenerator.ScoreBands` and `ReportGenerator.ColorMonotone` state it. |
| ReportGenerator.ScoreEmoji | rag_pdf_checker.py:519-526 | The emoji on the same bands as the colour. `ReportGenerator.ScoreBands` states it. |
| ShowResults.DigitsHaveNoDot | show_results.py:65-66 | A string of digits holds no ".", so replacing "." changes nothing in it. |
| ShowResults.LabelOfChapterId | show_results.py:60-67 | An ID `<pdf>_<number>_<hash>`, with no `_` in the PDF name or the hash, is labelled "number (Section number)". |
| ShowResults.LabelOfTwoParts | show_results.py:68-69 | An ID with fewer than three `_` parts gets an empty label. |
| ShowResults.FirstSeen | show_results.py:79-80 | Holds exactly the values of the list. |
| ShowResults.FirstIndex | show_results.py:79-81 | The first position holding the value, with none before it. |
| ShowResults.FirstSeenOrder | show_results.py:79-84 | The first-seen values are listed in the order they first appear, as a Python dictionary orders its keys. |
| ShowResults.FirstIndexPrefix | show_results.py:79-81 | A value already in a prefix first appears where it first appears in that prefix. |
| ShowResults.FirstSeenDistinct | show_results.py:79-81 | Each value is listed once. |
| ShowResults.KeysOf | show_results.py:43-78 | The key of each item, in order. |
| ShowResults.WithKeyMembers | show_results.py:79-81 | A group holds exactly the items with its key, so each item lands in exactly one group. |
| ShowResults.FirstSeenNext | show_results.py:79-80 | One more value is added at the end iff it was not seen before. |
| ShowResults.WithKeyNext | show_results.py:81 | One more item joins the end of its own key's group only. |
| ShowResults.GroupBy | show_results.py:57-81 | Groups are listed in first-seen key order. Each key is a group, and each group holds exactly the items with that key, in input order. |
| ShowResults.GroupByPair | show_results.py:57-81 | The same, grouping contradictions by the labels of their two chapters. (See also lines 151-175.) |
| ShowResults.OccurrencesAbsent | show_results.py:43-44 | A value never seen is counted zero times. |
| ShowResults.CountOfSnoc | show_results.py:42-44 | With distinct keys, one more value adds one to the total iff it is one of the keys. |
| ShowResults.CountsTotal | show_results.py:42-44 | The counts of the distinct types add up to the number of contradictions. |
| ShowResults.CountStep | show_results.py:43-44 | One more key adds one to its own count and leaves the others alone. |
| ShowResults.CountBy | show_results.py:34-44 | Keys in first-seen order, each counting exactly the items with that key. |
| ShowResults.CountTypes | show_results.py:34-44 | The same, counting contradictions by type. (See also lines 207-217.) |
| ShowResults.InsertByCount | show_results.py:47 | A permutation of the list plus the new entry. (See also line 219.) |
| ShowResults.InsertOrdered | show_results.py:47 | Inserting an entry seen after all others keeps the list in descending count order, ties by first sight. (See also line 219.) |
| ShowResults.SnocOrdered | show_results.py:47 | Appending an entry that comes after the last keeps the list ordered. |
| ShowResults.ByCount | show_results.py:47 | A permutation of the entries. (See also line 219.) |
| ShowResults.ByCountOrdered | show_results.py:47 | Entries given in first-seen order come out by descending count, with ties in first-seen order, as Python's stable sort keeps them. (See also line 219.) |
| ShowResults.Entries | show_results.py:47 | One entry per type, ranked by its first-seen position. |
| ShowResults.RankedCounts | show_results.py:42-47 | Sorting keeps one entry per type. Each carries the type's count, and its rank is the type's first-seen position. |
| ShowResults.OrderedAll | show_results.py:47 | In an ordered list every entry comes before every later one, not only the next. |
| ShowResults.RankedOrder | show_results.py:47 | The sorted list names each type once. Of two types with the same count, the one that appears first in the input is listed first. (See also line 219.) |
| ShowResults.Highest | show_results.py:111-113 | An index holding the highest confidence, with every earlier one strictly lower: the first maximum, as `max` gives it. |
| ShowResults.TypeName | show_results.py:35-48 | The four known types get a different (Korean) name; any other type is shown as it is. |
| ShowResults.ResultFile | show_results.py:122-132 | The interim file when it exists, else the final file when it exists, else nothing. |
| ShowResults.Show | show_results.py:13-221 | The total is the number of contradictions; with none, nothing else is listed. Otherwise the groups are the chapter-pair groups in first-seen order. The type counts list each type exactly once with its count, by descending count, with ties in first-seen order. The highest confidence is reported. |
| ShowResults.Label | show_results.py:63-69 | The label of one chapter ID: with three or more "_" parts, its second part with ". " for each ".", followed by " (Section s)" when the second-to-last part s is all digits; the empty string for fewer parts, as the source's join of the middle parts gives. `ShowResults.LabelOfChapterId` and `ShowResults.LabelOfTwoParts` state it. |
| ShowResults.PairKey | show_results.py:78 | The group key "L1 <-> L2" of a contradiction. |
| ShowResults.WithKey | show_results.py:79-81 | The items with one key, in input order. `ShowResults.WithKeyMembers` states it. |
| ShowResults.Occurrences | show_results.py:42-44 | How often a type occurs. `ShowResults.CountsTotal` states that the counts sum to the total. |
| ShowResults.KindOf | show_results.py:43-44 | The key the type counts are made by: a contradiction's type. |
| ShowResults.CountOf | show_results.py:42-44 | The summed counts of a list of keys. `ShowResults.CountsTotal` states that over the distinct keys they add up to the length of the list. |
| AnalyzeChapters.LessIrreflexive | analyze_chapters.py:33-58 | No string is below itself in Python's string order. |
| AnalyzeChapters.LessTotal | analyze_chapters.py:33-58 | Any two different strings are ordered one way or the other. |
| AnalyzeChapters.LessTransitive | analyze_chapters.py:33-58 | The order is transitive. |
| AnalyzeChapters.Least | analyze_chapters.py:33-58 | The least member of a non-empty set, below every other member. |
| AnalyzeChapters.BelowAll | analyze_chapters.py:33-58 | Below the least member is below every member. |
| AnalyzeChapters.Sorted | analyze_chapters.py:33-58 | Lists every member of the set once, in strictly increasing order. |
| AnalyzeChapters.Decompose | analyze_chapters.py:34-38 | Fails iff the ID has fewer than three `_` parts. Otherwise the PDF name and hash hold no `_`, and PDF name, title and hash joined by `_` give back the ID. |
| AnalyzeChapters.JoinAround | analyze_chapters.py:37 | A join of three parts or more splits into the first part, the joined middle and the last part. |
| AnalyzeChapters.ComposeDecompose | analyze_chapters.py:34-38 | An ID built as `{pdf}_{title}_{hash}` splits back into the same three parts. |
| AnalyzeChapters.IdsOf | analyze_chapters.py:22-25 | A failure names one of the two keys. |
| AnalyzeChapters.IdsOfContents | analyze_chapters.py:22-25 | The IDs are collected iff every record has both keys. They are then exactly the values under those keys. |
| AnalyzeChapters.CollectIds | analyze_chapters.py:22-25 | The loop computes the specification ID set or the first missing key. |
| AnalyzeChapters.KeepsError | analyze_chapters.py:23-25 | Once a record lacks a key, the whole loop fails with that key. |
| AnalyzeChapters.SavedRecord | rag_pdf_checker_v1.py:410-418 | A saved contradiction has `doc1_id` and `doc2_id`, holding its two chapters, and has no `chapter1_id` or `chapter2_id`. |
| AnalyzeChapters.SavedRecords | rag_pdf_checker_v1.py:407-418 | One record per contradiction, in order. |
| AnalyzeChapters.SavedRecordsAsWritten | analyze_chapters.py:23-25 | As written. Reading saved contradictions under `chapter1_id` fails with `KeyError('chapter1_id')` on the first record. |
| AnalyzeChapters.SavedRecordsCorrected | analyze_chapters.py:23-25 | Corrected version. Under `doc1_id` and `doc2_id`, the IDs are exactly the two chapters of every contradiction. |
| AnalyzeChapters.EntryOf | analyze_chapters.py:34-44 | An ID makes an entry iff it has three parts or more. The entry then holds the ID, its title and its PDF name. |
| AnalyzeChapters.RefsNext | analyze_chapters.py:33-44 | One more ID adds its entry, if it makes one. |
| AnalyzeChapters.GroupStep | analyze_chapters.py:40 | One more item adds its key at the end of the keys and joins the end of its key's group. |
| AnalyzeChapters.FileStep | analyze_chapters.py:40 | Appending an item to its key's list, and adding the key when it is new, files one more item. |
| AnalyzeChapters.Append | analyze_chapters.py:40 | `defaultdict(list)` append keeps the items filed, keys in insertion order. |
| AnalyzeChapters.GroupByPdf | analyze_chapters.py:31-44 | Files the entries of the IDs by PDF name, PDFs in first-seen order and entries in ID order. |
| AnalyzeChapters.TitleCountIsIds | analyze_chapters.py:57-59 | With distinct IDs, a title's count among a PDF's entries is the number of IDs with that PDF and title. |
| AnalyzeChapters.TitleCountSnoc | analyze_chapters.py:59 | One more entry adds one to its title's count. |
| AnalyzeChapters.GroupSnoc | analyze_chapters.py:40 | The last ID joins its PDF's group, if it makes an entry. |
| AnalyzeChapters.IdsNamingSnoc | analyze_chapters.py:33-44 | The last ID, not seen before, adds one to the IDs naming its PDF and title. |
| AnalyzeChapters.RowTitles | analyze_chapters.py:58 | The title of each row, in order. |
| AnalyzeChapters.TitleRows | analyze_chapters.py:57-60 | Lists every title of the entries once, in sorted order, with its count. |
| AnalyzeChapters.Summarize | analyze_chapters.py:55-60 | One summary per PDF, in insertion order, each listing its titles as `TitleRows` states. |
| AnalyzeChapters.Analyze | analyze_chapters.py:10-60 | Corrected version, reading `doc1_id` and `doc2_id`. Without a results file, nothing. A record missing a key fails with that key. Otherwise it gives the IDs each once in sorted order, their entries filed by PDF, and for each PDF each title with the number of distinct IDs of that PDF and title. |
| AnalyzeChapters.Counts | analyze_chapters.py:55-60 | Once the IDs are sorted and filed, each title's count is the number of distinct IDs with that PDF and title. |
| AnalyzeChapters.EntryPdf | analyze_chapters.py:36 | The PDF an entry is filed under: its ID's first "_" part. |
| AnalyzeChapters.Refs | analyze_chapters.py:33-44 | The entries made for the sorted IDs; IDs with fewer than three parts make none. |
| AnalyzeChapters.TitleCount | analyze_chapters.py:59 | The number of a PDF's entries with a title. `AnalyzeChapters.TitleCountIsIds` states it. |
| AnalyzeChapters.Titles | analyze_chapters.py:57 | The set of a PDF's titles. |
| AnalyzeChapters.IdsNaming | analyze_chapters.py:55-60 | The IDs that split into a given PDF and title. |
| AnalyzeChapters.Names | analyze_chapters.py:34-38 | An ID that splits into a given PDF name and chapter title. `AnalyzeChapters.IdsNamingSnoc` uses it. |
| Strings.Split | analyzers/code.py:151-185 | `str.split(sep)` gives at least one part, none of which holds the separator. |
| Strings.JoinSplit | rag_pdf_checker.py:763 | Joining the parts of a split with the separator gives back the text. |
| Strings.SplitNoSep | analyze_chapters.py:34 | A text without the separator splits into itself alone. |
| Strings.SplitConcat | analyzers/contradiction.py:33-40 | A separator-free head, the separator and a rest split into the head followed by the rest's parts. |
| Strings.SplitJoin | analyze_chapters.py:34-37 | Splitting a join of separator-free parts gives back the parts. |
| Strings.JoinSnoc | analyzers/flow.py:137 | Joining one more part appends the separator and that part. |
| Strings.StripLeft | analyzers/code.py:139 | Removes exactly the leading whitespace: the result is a suffix that does not start with whitespace, and everything removed is whitespace. |
| Strings.StripRight | analyzers/code.py:139 | Removes exactly the trailing whitespace: the result is a prefix that does not end with whitespace, and everything removed is whitespace. |
| Strings.StripIsTrimmed | analyzers/code.py:139 | `strip()` gives a slice of the text that neither starts nor ends with whitespace. |
| Strings.StripNoEdgeSpace | analyzers/base.py:67-73 | A text with no whitespace at either end is unchanged by `strip()`. |
| Strings.StripPadded | analyzers/base.py:67-73 | One space on each side of such a text is stripped away. |
| Strings.Words | analyzers/redundancy.py:128-129 | `str.split()` gives only non-empty words. |
| Strings.FirstWord | analyzers/redundancy.py:128-129 | The leading run of non-whitespace: a prefix with no whitespace, non-empty when the text starts with a non-space. |
| Strings.FindFrom | analyzers/base.py:64-71 | `str.find(p, start)` gives a position at or after `start` where `p` fits in the text. |
| Strings.FindFromSpec | analyzers/base.py:64-71 | The position found holds `p`, with no occurrence between `start` and it. `None` (Python's -1) only when there is no occurrence from `start` on. |
| Strings.FindFirst | analyzers/base.py:64-71 | An occurrence with none before it from `start` is the one found. |
| Strings.Take | analyzers/code.py:176 | `s[:n]` is the first min(n, len) items. (See also line 233.) |
| Strings.ReplaceAbsent | show_results.py:65 | Replacing a pattern that never occurs changes nothing. |
| Strings.Lower | analyzers/terminology.py:211-216 | `lower()` keeps the length. |
| Strings.DigitChar | analyzers/redundancy.py:116 | A digit below ten is written as a digit character. |
| Strings.NatToString | analyzers/redundancy.py:116 | `str(n)` of a natural number holds only digits. |
| Strings.NatToStringInjective | rag_pdf_checker.py:65-67 | Different numbers are written differently. |
| Strings.Enumerate | analyzers/terminology.py:257 | `list(s)` of a set lists every member exactly once. |
| Dicts.PutFind | analyzers/terminology.py:229 | After `d[key] = v`, looking up `key` gives `v` and every other key is unchanged. |
| Dicts.KeysCons | analyzers/terminology.py:229 | The keys of a dictionary are the first key plus those of the rest. |
| Dicts.PutKeys | analyzers/terminology.py:229 | `d[key] = v` adds `key` to the keys. The size grows by one iff the key is new. |
| Dicts.HeadNotInTail | analyzers/terminology.py:229 | In a dictionary with distinct keys, the first key does not recur and the rest also has distinct keys. |
| Dicts.DistinctCons | analyzers/terminology.py:229 | A new first key before distinct keys keeps the keys distinct. |
| Dicts.PutDistinct | analyzers/terminology.py:229 | `d[key] = v` keeps the keys distinct. |
| Dicts.EntryFind | analyzers/terminology.py:229 | With distinct keys, looking up entry i's key gives entry i's value. |
| Pairs.RowPrefix | analyzers/terminology.py:174 | Row i up to j holds j - i - 1 pairs. |
| Pairs.RowPrefixShape | analyzers/terminology.py:173-174 | Pair k of row i is (i, i + 1 + k). |
| Pairs.RowsCount | analyzers/terminology.py:173-174 | The first i rows of n hold i(2n - i - 1)/2 pairs. |
| Pairs.PairCount | rag_pdf_checker_v1.py:565 | There are n(n-1)/2 pairs. |
| Pairs.RowsMembers | analyzers/contradiction.py:82-83 | The first i rows hold exactly the pairs (a, b) with a < i and a < b < n. |
| Pairs.AllPairsMembers | analyzers/contradiction.py:82-83 | All rows hold exactly the pairs (a, b) with a < b < n. |
| Pairs.RowsAscending | analyzers/contradiction.py:82-83 | The first rows list their pairs in ascending order, so each pair once. |
| Pairs.AllPairsAscending | analyzers/contradiction.py:82-83 | All pairs are listed in ascending order, each once. |
| Pairs.RowsIsPrefix | analyzers/contradiction.py:82-83 | The first i rows are a prefix of the first k rows, for i ≤ k. |
| Pairs.RowEnd | analyzers/contradiction.py:83 | Row i adds n - i - 1 pairs. |
| Pairs.PairAt | analyzers/contradiction.py:82-83 | Pair (i, j) is visited at position \|rows before i\| + (j - i - 1). |
| Pairs.CallsAppend | analyzers/contradiction.py:94 | The calls of two event runs are those of each, concatenated. |
| Pairs.SavesAppend | rag_pdf_checker_v1.py:596 | The checkpoint writes of two event runs are those of each, concatenated. |
| Pairs.SleepsAppend | analyzers/contradiction.py:87-91 | The sleeps of two event runs are those of each, concatenated. |
| Pairs.AllPairsInRange | analyzers/contradiction.py:82-83 | Every pair names two chapters that exist. |
| Pairs.AllPairs | analyzers/contradiction.py:82-83 | Every pair the nested loops visit, in order. `Pairs.PairCount`, `Pairs.AllPairsMembers` and `Pairs.AllPairsAscending` state it. |
| Pairs.Rows | analyzers/contradiction.py:82-83 | The pairs of the first i rows. `Pairs.RowsCount`, `Pairs.RowsMembers` and `Pairs.RowsAscending` state them. |
| Pairs.Calls | rag_pdf_checker_v1.py:590 | The pairs a trace calls the model on, in order. |
| Pairs.Saves | rag_pdf_checker_v1.py:596 | The snapshots a trace writes, in order. |
| Pairs.Sleeps | rag_pdf_checker_v1.py:585-605 | The number of sleeps of a given length in a trace. |
| Counter.Insert | analyzers/terminology.py:358 | Inserting adds exactly one entry. |
| Counter.InsertAtMost | analyzers/terminology.py:358 | Inserting an entry with count at most v into entries with counts at most v keeps them at most v. |
| Counter.DescendingCons | analyzers/terminology.py:358 | A head whose count bounds a descending tail gives a descending list. |
| Counter.DescendingTail | analyzers/terminology.py:358 | The tail of a descending list is descending and bounded by the head's count. |
| Counter.InsertSorted | analyzers/terminology.py:358 | Inserting into a descending list keeps it descending. |
| Counter.InsertPerm | analyzers/terminology.py:358 | Inserting adds the entry and loses nothing. |
| Counter.SortDesc | analyzers/terminology.py:358 | The sort keeps the number of entries. |
| Counter.MostCommon | analyzers/terminology.py:358 | `most_common(k)` lists at most k keys and at most as many as the counter has. |
| Counter.Position | analyzers/terminology.py:355-356 | The insertion position of a key, holding that key when below the size. |
| Counter.PositionOfEntry | analyzers/terminology.py:355-356 | With distinct keys, entry i's key is at position i. |
| Counter.PutPosition | analyzers/terminology.py:355-356 | Setting a key keeps every known key's position, and a new key goes last. |
| Counter.StableTail | analyzers/terminology.py:358 | The tail of a stable list is stable, and the head precedes every later entry of equal count in insertion order. |
| Counter.StableCons | analyzers/terminology.py:358 | A head inserted before every later entry of equal count keeps the list stable. |
| Counter.SortedEntries | analyzers/terminology.py:358 | Every sorted entry is an entry of the counter, with the key's count. |
| Counter.Count | analyzers/terminology.py:356 | A counter's value for a key, 0 for a key never added, as `Counter` reads a missing key. |
| Counter.Add | analyzers/terminology.py:356 | Adding to a key's count, a new key going last. `Counter.AddPosition` states that a key already there keeps its place and a new one takes the last. |
| Counter.Stable | analyzers/terminology.py:358 | Entries of equal count keep the order in which their keys were first added. `Counter.SortDescStable` states that the sort keeps it. |
| Analysis.SumAppend | analyzers/contradiction.py:102 | `sum` over one more value adds that value. |
| Analysis.Sum | rag_pdf_checker.py:293 | The sum of a list of scores. `Analysis.SumAppend` and `Analysis.SumBounds` state it. |
| Analysis.Mean | rag_pdf_checker.py:293 | The sum over the length, with a given value for an empty list. `Analysis.MeanBounds` bounds it. |
| Analysis.ToDicts | analyzers/contradiction.py:112 | One dictionary per record, in order, each the record's own conversion; every analyzer's `details` list (analyzers/contradiction.py:112, analyzers/redundancy.py:98, analyzers/flow.py:97, analyzers/theory.py:121, analyzers/terminology.py:196) and the checkpoint of rag_pdf_checker_v1.py:409-420 are built with it. |
| Analysis.DictsRoundTrip | analyzers/contradiction.py:112 | When each record reads back from its dictionary (the `DictRoundTrip` lemma of each record type), every record of a converted list reads back from its dictionary: the lists lose nothing. |
| Chapters.NoHitNoMarker | rag_pdf_checker.py:159-162 | When no pattern from p on matches a line, the line yields no marker. |
| Chapters.NoMarkerNoHit | rag_pdf_checker.py:159-162 | When a line yields no marker, no pattern from p on matches it. |
| Chapters.Marks | rag_pdf_checker.py:116 | One marker result per page. |
| Chapters.MarkedPages | rag_pdf_checker.py:116-118 | The marked pages are listed in increasing order, and each lies in the PDF and carries a marker. |
| Chapters.MarkedPagesSnoc | rag_pdf_checker.py:116-118 | One more page adds itself when it carries a marker. |
| Chapters.Closed | rag_pdf_checker.py:118-134 | Every start but the last closes a chapter. |
| Chapters.ExtractFrom | rag_pdf_checker.py:101-151 | One chapter per marked page. |
| Chapters.ChapterEnd | rag_pdf_checker.py:128-141 | A chapter ends on the page before the next start, and the last one on the last page. |
| Chapters.ValidStartsSnoc | rag_pdf_checker.py:116-118 | A later marked page extends the starts. |
| Chapters.ClosedSnoc | rag_pdf_checker.py:118-134 | A new marked page closes the open chapter on the page before it. |
| Chapters.ExtractFromSpan | rag_pdf_checker.py:118-149 | Every chapter is made from a marked start page and an end page within the PDF. |
| Chapters.NotAStart | rag_pdf_checker.py:135-137 | A page strictly between two consecutive starts is not a start. |
| Chapters.UnmarkedInside | rag_pdf_checker.py:135-137 | A page strictly between two consecutive starts carries no marker. |
| Chapters.ChapterFields | rag_pdf_checker.py:121-129 | A made chapter has the file's name and hash and its page span. It carries its start page's number and title, and its text is its pages joined by newlines. |
| Chapters.UnmarkedChapter | rag_pdf_checker.py:135-137 | No page after a chapter's start, up to its end, carries a marker. |
| Chapters.ScanTo | rag_pdf_checker.py:113-137 | An open chapter started before the current page. |
| Chapters.ScanNext | rag_pdf_checker.py:113-137 | One more page keeps the loop's progress invariant. |
| Chapters.ScanProgress | rag_pdf_checker.py:113-137 | After any number of pages, the closed chapters and the open one are those of the pages seen. |
| Chapters.GetId | rag_pdf_checker.py:65-67 | The first 8 characters of the file hash, "_", the chapter number. `Chapters.GetIdInjective` states when two IDs coincide. |
| Chapters.LineMarker | rag_pdf_checker.py:160-166 | The first pattern in list order that matches one line gives the number and the stripped line. `Chapters.LineMarkerNone` and `Chapters.LineMarkerEarliest` state it. |
| Chapters.FirstMarker | rag_pdf_checker.py:159-167 | Lines are tried in order, and the first line with a match decides. `Chapters.FirstMarkerNone` and `Chapters.FirstMarkerIsEarliest` state it. |
| Chapters.ScannedLines | rag_pdf_checker.py:157 | Only the first 10 lines of a page are searched. |
| Chapters.PageMarker | rag_pdf_checker.py:153-167 | The marker of one page, as `Chapters.FindChapterMarker` computes it. |
| Chapters.MakeChapter | rag_pdf_checker.py:121-129 | A chapter's fields: its marker's number and title, its pages joined by "\n", its first and last page. `Chapters.ChapterFields` states them. |
| Chapters.Extract | rag_pdf_checker.py:101-151 | The chapters of a document. `Chapters.ExtractFromTiles`, `Chapters.ExtractFromAdjacent`, `Chapters.ExtractFromEmpty`, `Chapters.ExtractFromUnmarked` and `Chapters.ExtractFromPages` state its properties, and `Chapters.ExtractChapters` is proved equal to it. |
| Chapters.Closing | rag_pdf_checker.py:121-129 | The open chapter closed on a given page: its marker's number and title and its pages joined by "\n". |
| Chapters.ScanStep | rag_pdf_checker.py:118-137 | One turn of the page loop: a marker closes the open chapter on the page before and opens a new one; any other page joins the open chapter. `Chapters.StepMarked` and `Chapters.StepUnmarked` state it. |
| Chapters.Finish | rag_pdf_checker.py:139-151 | After the loop, the open chapter, if any, is closed on the last page. `Chapters.ScanToExtract` proves that the loop ends with `Chapters.Extract`. |
| ChaptersV1.Starts | rag_pdf_checker_v1.py:134-157 | The starts are valid 1-based pages in increasing order, and each has the number its page's marker gives. |
| ChaptersV1.StartsSnoc | rag_pdf_checker_v1.py:138-155 | One more page adds a start iff it carries a marker. |
| ChaptersV1.Cut | rag_pdf_checker_v1.py:98-125 | One chapter per start, each cut as the specification says. |
| ChaptersV1.GetId | rag_pdf_checker_v1.py:50-53 | PDF name, "_", chapter number, "_", the first 8 characters of the content's MD5. `AnalyzeChapters.ComposeDecompose` states when the ID splits back into these parts. |
| ChaptersV1.LineStart | rag_pdf_checker_v1.py:143-152 | The first pattern in list order that matches one line gives the chapter number. |
| ChaptersV1.FirstStart | rag_pdf_checker_v1.py:142-155 | The first line with a match decides, so a page records at most one start. |
| ChaptersV1.PageStart | rag_pdf_checker_v1.py:138-155 | The start a page opens with, searched over its first 10 lines. `ChaptersV1.FindChapterStarts` and `ChaptersV1.StartsIndex` state the starts found. |
| ChaptersV1.ChapterFrom | rag_pdf_checker_v1.py:98-125 | Chapter i runs from its start page to the page before the next start, or to the last page. `ChaptersV1.ChapterFromShape` states its fields. |
| ChaptersV1.Extract | rag_pdf_checker_v1.py:81-132 | No chapters for an unreadable PDF, otherwise one per start. `ChaptersV1.UnreadableIsEmpty`, `ChaptersV1.ExtractAt`, `ChaptersV1.ExtractTiles` and `ChaptersV1.MarkedPageOpensChapter` state it, and `ChaptersV1.ExtractChapters` is proved equal to it. |
| DetectorV1.VisitedInRange | rag_pdf_checker_v1.py:578-582 | Every visited pair names two chapters that exist. |
| DetectorV1.Kept | rag_pdf_checker_v1.py:589-592 | A pair's finding is kept iff the detector returns one with confidence above 0.6, and then it is that finding. |
| DetectorV1.RunNext | rag_pdf_checker_v1.py:578-605 | One more pair extends the run by one step. |
| DetectorV1.VisitCount | rag_pdf_checker_v1.py:578-608 | The visited pairs are a prefix of all pairs. |
| DetectorV1.StepCalls | rag_pdf_checker_v1.py:590 | One step calls the model on its pair only. |
| DetectorV1.PauseCount | rag_pdf_checker_v1.py:585-587 | The pause count goes from (k-1)/10 to k/10 after call k. |
| DetectorV1.Snapshots | rag_pdf_checker_v1.py:592-596 | One checkpoint snapshot per kept finding. |
| DetectorV1.SnapshotsAt | rag_pdf_checker_v1.py:596 | Snapshot m holds the first m + 1 findings. |
| DetectorV1.SnapshotsStep | rag_pdf_checker_v1.py:592-596 | A kept finding adds one snapshot, holding all findings so far; no finding adds none. |
| DetectorV1.ReplyText | rag_pdf_checker_v1.py:355-380 | The text handed to `json.loads`: OpenAI's reply as received, Claude's after the leading-fence unwrap. `DetectorV1.ClaudeFencedReply` and `DetectorV1.OpenAiReplyVerbatim` state it. |
| DetectorV1.Interim | rag_pdf_checker_v1.py:403-421 | The checkpoint for a list: status "in_progress", the list's length and one record per finding. `DetectorV1.InterimShape` states it. |
| DetectorV1.Visited | rag_pdf_checker_v1.py:566-582 | All pairs, or the first five in test mode. `DetectorV1.VisitCountIs` states the count. |
| DetectorV1.PausesBefore | rag_pdf_checker_v1.py:585-587 | A call waits 60 seconds first when the calls so far are positive and a multiple of 10. `DetectorV1.PauseCounts` counts the pauses. |
| DetectorV1.PairEvents | rag_pdf_checker_v1.py:585-605 | One pair's events: the pause if due, the call, a save if a finding was kept, then the 2-second sleep. `DetectorV1.PairEventsCalls`, `DetectorV1.PairEventsSaves` and `DetectorV1.PairEventsSleeps` state them. |
| DetectorV1.Step | rag_pdf_checker_v1.py:584-605 | Visiting one pair. `DetectorV1.StepFound`, `DetectorV1.StepSleeps` and `DetectorV1.StepSaves` state it. |
| DetectorV1.Run | rag_pdf_checker_v1.py:578-610 | The findings and trace after the first m pairs. `DetectorV1.FoundFrom`, `DetectorV1.RunCalls`, `DetectorV1.RunSaves`, `DetectorV1.CallsEveryPairOnce` and `DetectorV1.CheckpointsGrow` state it, and `DetectorV1.DetectAll` is proved equal to it. |
| DetectorV1.DetectorOf | rag_pdf_checker_v1.py:589-590 | The detection for a pair: the configured model's reply, on the two chapters' IDs. |
| ContradictionAnalyzer.RunNext | analyzers/contradiction.py:82-99 | One more pair extends the run by one step. |
| ContradictionAnalyzer.PauseCount | analyzers/contradiction.py:89-91 | The pause count goes from (m-1)/10 to m/10 at pair m. |
| ContradictionAnalyzer.PairEvents | analyzers/contradiction.py:84-94 | One pair's events: 2 seconds before every pair but the first, 60 more before every tenth, then the call. `ContradictionAnalyzer.PairEventsCalls`, `ContradictionAnalyzer.PairEventsDelays` and `ContradictionAnalyzer.PairEventsPauses` state them. |
| ContradictionAnalyzer.Finding | analyzers/contradiction.py:93-99 | A pair that raised or found nothing adds no finding. |
| ContradictionAnalyzer.Step | analyzers/contradiction.py:84-99 | Visiting one pair: its finding, if any, and its events. |
| ContradictionAnalyzer.Run | analyzers/contradiction.py:82-99 | The findings and trace after the first m pairs. `ContradictionAnalyzer.FoundFrom`, `ContradictionAnalyzer.RunCalls`, `ContradictionAnalyzer.RunDelays`, `ContradictionAnalyzer.RunPauses` and `ContradictionAnalyzer.AnalyzeTrace` state it, and `ContradictionAnalyzer.Analyze` is proved equal to it. |
| ContradictionAnalyzer.DetectorOf | analyzers/contradiction.py:93-94 | The detection for a pair: the model's reply to that call, decoded, on the two chapters' IDs. |
| Contradictions.Confidences | analyzers/contradiction.py:102 | The confidence of each finding, in order. |
| RedundancyAnalyzer.WindowCountBound | analyzers/redundancy.py:112 | `range(0, len, 500)` has ceil(len / 500) windows: window w exists iff 500w < len. |
| RedundancyAnalyzer.KeptCountBound | analyzers/redundancy.py:112-114 | No more windows are kept than exist, and none iff the text is at most 200 characters. |
| RedundancyAnalyzer.WindowsToShape | analyzers/redundancy.py:112-121 | The first w windows keep min(w, kept count) segments, segment x starting at 500x. |
| RedundancyAnalyzer.RunNext | analyzers/redundancy.py:75-87 | One more pair extends the run by one step. |
| RedundancyAnalyzer.ComparedMembers | analyzers/redundancy.py:78-81 | A pair is compared iff it is listed and its segments come from different chapters. |
| RedundancyAnalyzer.AskedMembers | analyzers/redundancy.py:84 | A pair is sent to the model iff it is listed and passes the prefilter. |
| RedundancyAnalyzer.WindowCount | analyzers/redundancy.py:112 | The number of window starts in `range(0, len, 500)`. `RedundancyAnalyzer.WindowCountBound` bounds it. |
| RedundancyAnalyzer.Window | analyzers/redundancy.py:112-121 | Window w: ID chapter_id + "_seg" + w, text `text[500w:500w+1000]`, end min(500w+1000, len). `RedundancyAnalyzer.WindowFields` states it. |
| RedundancyAnalyzer.Kept | analyzers/redundancy.py:114 | A window is kept when its text is longer than 200 characters. |
| RedundancyAnalyzer.ChapterSegments | analyzers/redundancy.py:107-121 | A chapter's kept windows in order. `RedundancyAnalyzer.ChapterSegmentsPrefix` and `RedundancyAnalyzer.KeptCountBound` state them. |
| RedundancyAnalyzer.AllSegments | analyzers/redundancy.py:102-123 | The segments of every chapter, chapter by chapter. `RedundancyAnalyzer.CreateSegments` is proved equal to it. |
| RedundancyAnalyzer.KeptCount | analyzers/redundancy.py:112-114 | How many windows a text of a given length keeps: none up to 200 characters. |
| RedundancyAnalyzer.WordSet | analyzers/redundancy.py:128-129 | The set of the lower-cased text's whitespace-separated words. |
| RedundancyAnalyzer.Jaccard | analyzers/redundancy.py:125-137 | The Jaccard index of the two word sets. `RedundancyAnalyzer.SetJaccard`, `RedundancyAnalyzer.JaccardSymmetric`, `RedundancyAnalyzer.JaccardSame` and `RedundancyAnalyzer.PrefilterShares` state it. |
| RedundancyAnalyzer.Cross | analyzers/redundancy.py:77-81 | A pair is compared when its segments come from different chapters. |
| RedundancyAnalyzer.Asks | analyzers/redundancy.py:84 | A compared pair reaches the model when its Jaccard index is above 0.3. |
| RedundancyAnalyzer.Keep | analyzers/redundancy.py:86-87 | A detection is kept when its similarity is above 0.7. |
| RedundancyAnalyzer.Step | analyzers/redundancy.py:75-88 | Visiting one pair: skipped within a chapter, counted, asked only past the prefilter. |
| RedundancyAnalyzer.Run | analyzers/redundancy.py:75-88 | The findings, comparison count and calls after the first m pairs. `RedundancyAnalyzer.RunComparisons`, `RedundancyAnalyzer.RunCalls`, `RedundancyAnalyzer.RunBounds` and `RedundancyAnalyzer.FoundFrom` state it, and `RedundancyAnalyzer.CompareSegments` is proved equal to it. |
| RedundancyAnalyzer.Compared | analyzers/redundancy.py:75-81 | The cross-chapter pairs, in order. `RedundancyAnalyzer.ComparedMembers` states them. |
| RedundancyAnalyzer.Asked | analyzers/redundancy.py:84-85 | The pairs the model is asked about, in order. `RedundancyAnalyzer.AskedMembers` and `RedundancyAnalyzer.AskedAscending` state them. |
| RedundancyAnalyzer.DetectorOf | analyzers/redundancy.py:85 | The detection for a pair of segments: the model's reply, decoded, on the two segments' IDs. |
| RedundancyAnalyzer.WindowsTo | analyzers/redundancy.py:112-121 | The kept windows among the first w, in order. `RedundancyAnalyzer.WindowsToShape` states their IDs and texts. |
| Replies.FirstFence | analyzers/base.py:64-70 | In backtick-free prose followed by a fence, the first fence is found right after the prose. |
| Replies.ClosingFence | analyzers/base.py:65-71 | After a backtick-free body, the closing fence is found right after it. |
| Replies.Pieces | analyzers/base.py:63-68 | prose + fence + body + "```" + rest has the body at the fence's end, followed by "```". |
| Replies.JsonFenceBody | analyzers/base.py:63-68 | With a "```json" fence closed later, the fenced body is the stripped text between them. |
| Replies.GenericFenceBody | analyzers/base.py:69-74 | Without "```json", with a "```" fence closed later, the fenced body is the stripped text between them. |
| Replies.ParseLlmResponse | analyzers/base.py:56-75 | Direct decoding first, then the fenced body. Its properties are stated by `Replies.DirectDecodeWins`, `Replies.ParseFenced`, `Replies.JsonFenceRoundTrip`, `Replies.GenericFenceKeepsTag`, `Replies.UnclosedJsonFenceFails` and `Replies.NoFenceFails`. |
| Replies.FencedBody | analyzers/base.py:61-74 | The text the fallback decodes: after the first "```json" up to the next "```", else after the first "```". `Replies.FenceLocations` and `Replies.JsonFenceIsFence` state where the fences are found. |
| Replies.UnwrapLeadingFence | rag_pdf_checker_v1.py:374-380 | The first pipeline's unwrap of a leading "```json" fence. `Replies.LeadingFenceRoundTrip`, `Replies.LeadingFenceOnly` and `Replies.NoLeadingFence` state it. |
| Terminology.TermsOfFindTo | analyzers/terminology.py:209-229 | After m chapters, a chapter whose ID no later one among them shares is looked up to its own terms. |
| Terminology.TallyKeysTo | analyzers/terminology.py:355-356 | After m findings, the tally has distinct keys: the canonical terms of those findings. |
| Terminology.TallyCount | analyzers/terminology.py:356 | The tally counts for each term the variations of all its findings. |
| Terminology.Mentions | analyzers/terminology.py:216 | A variation is mentioned when its lower-case form is a substring of the lower-cased text. |
| Terminology.MentionedTo | analyzers/terminology.py:215-217 | The mentioned variations of one concept. `Terminology.MentionedToIff` states it. |
| Terminology.MappingTermsTo | analyzers/terminology.py:214-217 | The mentioned variations of all concepts. `Terminology.MappingTermsToIff` states it. |
| Terminology.ChapterTerms | analyzers/terminology.py:209-227 | A chapter's terms: the mentioned variations and what the two patterns find. `Terminology.ChapterTermsMappings` states it. |
| Terminology.TermsOf | analyzers/terminology.py:207-231 | The term dictionary, one entry per chapter ID. `Terminology.TermsOfKeys` and `Terminology.TermsOfFind` state it, and `Terminology.ExtractTerms` is proved equal to it. |
| Terminology.TotalTerms | analyzers/terminology.py:188 | The number of terms over all chapters. |
| Terminology.HasHangul | analyzers/terminology.py:318 | A term holding a character from U+AC00 to U+D7A3. |
| Terminology.UpperInitial | analyzers/terminology.py:327 | A term whose first character is upper case. |
| Terminology.HighConcept | analyzers/terminology.py:341-344 | Some variation belongs, case-insensitively, to a high-severity concept. `Terminology.Severity` and `Terminology.HighFrom` state its use. |
| Terminology.Explanation | analyzers/terminology.py:261 | The explanation of a pattern finding names the concept and the canonical term. |
| Terminology.Used | analyzers/terminology.py:242-245 | A chapter's terms that are variations of the concept. `Terminology.UsedTerms` states it. |
| Terminology.UsedVariations | analyzers/terminology.py:248-250 | The terms of any chapter that match one of the concept's variations case-insensitively, kept as they were found. `Terminology.UsageVariations` states it. |
| Terminology.Mixed | analyzers/terminology.py:368-370 | A finding whose first variation holds both an ASCII character and one at or above U+AC00; a finding without variations does not count. |
| Terminology.Informal | analyzers/terminology.py:376-377 | A finding with an informal abbreviation among its variations. |
| Terminology.MixedCount | analyzers/terminology.py:368-370 | The number of mixed-language findings. `Terminology.MixedCountSpec` states it. |
| Terminology.Tally | analyzers/terminology.py:354-356 | The counter of variations per canonical term. `Terminology.TallySpec`, `Terminology.TallyOrder` and `Terminology.TallyTerms` state it. |
| Terminology.VariationsFor | analyzers/terminology.py:355-356 | The summed variation count of one canonical term. |
| Terminology.MostInconsistentTerms | analyzers/terminology.py:352-358 | The five most counted canonical terms. `Terminology.MostInconsistentTermsSpec` and `Terminology.MostInconsistentTermsOrder` state it. |
| Terminology.Prefers | analyzers/terminology.py:317-329 | The three preferences in turn: a Hangul term from the preferred list, any Hangul term, a term with an upper-case initial. `Terminology.Canonical` states the choice. |
| Terminology.FirstWith | analyzers/terminology.py:318-329 | The term is the first of the list with a given preference. `Terminology.Canonical` states its result with it. |
| Terminology.MixedTerm | analyzers/terminology.py:369-370 | A term with an ASCII character and one at or above U+AC00; no upper bound is checked. |
| Terminology.CanonicalTerms | analyzers/terminology.py:355-356 | The canonical terms the findings name. `Terminology.TallySpec` states that the tally's keys are these, and `Terminology.MostInconsistentTermsSpec` that the five listed come from them. |

## Left out

- Wrong-typed JSON values. The decoder parameter returns a typed reply, so a value of the wrong type takes the model's default or `None` path. The source raises instead at these places:
  - `result.get` on a reply that is not a dictionary (analyzers/redundancy.py:155, analyzers/theory.py:145 and 155, analyzers/flow.py:81 and 90, analyzers/code.py:229, analyzers/terminology.py:295) raises `AttributeError`;
  - a `similarity_score` that is not a number, compared at analyzers/redundancy.py:155, raises `TypeError`;
  - `', '.join` over concepts that are not strings (analyzers/flow.py:133) raises `TypeError`;
  - a severity that is not a string is still used as a report bucket key.
- Unicode character classes. `Strings.LowerChar`, `Strings.Lower`, `Strings.IsDigit`, `CodeAnalyzer.IsWordChar` (the regex `\w`) and `Terminology.UpperInitial` (`isupper`) cover ASCII only. Python's versions cover all of Unicode, so a Hangul identifier after `import` is not captured by `CodeAnalyzer.ImportCapture`, and a non-ASCII capital is not upper case. `Strings.IsSpace` is Python's full `isspace` set.
- Floating point. Scores, confidences and similarities are `real`, so there is no rounding. The `:.2f` / `:.2%` formatting is not modelled.
- The clock. `generated_at` and the other timestamps (rag_pdf_checker.py:300, rag_pdf_checker_v1.py:406, show_results.py:21) are not modelled.
- File I/O, `os.path.exists`, `json.load` and its `JSONDecodeError` handling (show_results.py:223-226). The result-reading scripts take the decoded file as an optional value.
- Logging, console output, `tqdm` progress bars and `colorama` colours.
- The language-model clients (OpenAI, Anthropic, Ollama). Each is an oracle parameter: a call returns a reply or raises.
- Regular expressions, `ast.parse` and MD5. Each is a parameter. Their own behaviour is unconstrained, and what the code does with their results is modelled.
- PDF reading, embeddings and the Qdrant vector store. Chapter extraction starts from the page texts.
- Set iteration order. Where the source iterates a `set`, the model allows any enumeration of it.
- Rendering the Markdown and JSON reports as text. The buckets, counts, labels and order are modelled, the text layout is not.
- ReportGenerator.ChapterInfo: the shortened title computed at rag_pdf_checker.py:768-769 is never used by the source, so it is not modelled.
- TerminologyAnalyzer.ConsistencyScore: the score is not clamped to [0, 1], because the source does not clamp it either (`TerminologyAnalyzer.NegativeScore` shows a negative score).
- Terminology.Canonical: for an empty term the source's `t[0].isupper()` raises `IndexError`. The model treats the empty term as not upper case.
- analyze_chapters.py: only the ID fields of the saved records are modelled, because the script reads nothing else. `sorted` over the IDs is modelled as a selection loop in code-point order.
- show_results.py: records are typed, so a saved record that lacks a key (caught by `except Exception`) is not modelled.
- TerminologyAnalyzer.UsageFrom: `chapters_usage` is a Dafny `map`, so the order in which chapters were first added, which a Python `dict` keeps and the saved JSON shows, is not modelled; the same holds for the usage map of `Terminology.DetectConcept`. Rendering is left out, so no modelled result depends on that order.
- The command-line entry points, the `main` functions and the monitor and test scripts are not part of this model.

## Findings

| source | as written | input that shows it | evidently intended | confidence | as-written member | corrected member |
|---|---|---|---|---|---|---|
| analyzers/terminology.py:369-370 | `_generate_recommendations` reads `term_variations[0]` of every finding | a model reply whose entry has no `terms_found`: analyzers/terminology.py:302 defaults it to `[]`, and the `IndexError` escapes `analyze` and the pipeline's `check` (rag_pdf_checker.py:274-279) | a finding without variations is not counted as mixed-language | not executed | Terminology.RecommendationsAsWritten, Terminology.EmptyVariationsFail, TerminologyAnalyzer.MissingTermsFound | Terminology.Recommendations, Terminology.RecommendationsAgree (used by TerminologyAnalyzer.Analyze) |
| analyzers/code.py:233 | the excerpt is `code.split('\n')[line - 1]` | the block `x = 1` with the reply `{"errors": [{"line": 2}]}` raises `IndexError`, and nothing catches it from analyzers/code.py:104 up; a negative line counts from the end | a line outside the block falls back to `code[:100]` | not executed | CodeAnalyzer.ExcerptAsWritten, CodeAnalyzer.ExcerptPastEnd | CodeAnalyzer.Excerpt, CodeAnalyzer.ExcerptAgrees (used by CodeAnalyzer.FromData and CodeAnalyzer.Analyze) |
| analyze_chapters.py:24-25 | reads `c['chapter1_id']` and `c['chapter2_id']` | any saved file with one contradiction: rag_pdf_checker_v1.py:410-418 writes `doc1_id` / `doc2_id`, so the script raises `KeyError('chapter1_id')` | read `doc1_id` and `doc2_id` | not executed | AnalyzeChapters.SavedRecordsAsWritten | AnalyzeChapters.SavedRecordsCorrected, AnalyzeChapters.Analyze |
| rag_pdf_checker.py:618-619 | the report reads `segment1_id` / `segment2_id` of each redundancy | any redundancy finding: analyzers/redundancy.py:170-172 writes `section1_id` / `section2_id`, so every redundancy is reported with empty IDs and chapter labels | read `section1_id` and `section2_id` | not executed | ReportGenerator.SegmentKeysMissing | ReportGenerator.SectionKeysFound |
| rag_pdf_checker.py:631 | the report prints `similarity` of each redundancy, 0 when absent | any redundancy finding: analyzers/redundancy.py:175 writes `similarity_score`, so every kept finding, whose similarity is above 0.7, is printed as 0.00% | read `similarity_score` | not executed | ReportGenerator.SimilarityAsWritten, ReportGenerator.SimilarityKeyMissing | ReportGenerator.Similarity, ReportGenerator.SimilarityKeyFound |
| rag_pdf_checker.py:600 | the flow section prints `type` of each issue, "unknown" when absent | any flow issue: analyzers/flow.py:143 writes `issue_type`, so every issue is printed with type "unknown" | read `issue_type` | not executed | ReportGenerator.FlowTypeAsWritten, ReportGenerator.FlowTypeKeyMissing | ReportGenerator.FlowType, ReportGenerator.FlowTypeKeyFound |
| rag_pdf_checker.py:668 | the code section prints `message` of each error, "" when absent | any code error: analyzers/code.py:251 writes `description` and no `message`, so every error is printed with an empty message | read `description` | not executed | ReportGenerator.CodeMessageAsWritten, ReportGenerator.CodeMessageKeyMissing | ReportGenerator.CodeMessage, ReportGenerator.CodeMessageKeyFound |
