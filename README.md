# ElasticSearchNER annotator, modelled in Dafny

`es_ner.py` annotates organisation names inside the HTML fragments of a
nested JSON document. `processEsDoc` makes two walks over the document with
`recursiveLook`:

1. Pass one feeds every eligible string leaf to a fresh `MyHTMLParser`. The
   parser's callbacks rebuild the markup in `data`, put a placeholder
   `[<key>-<count>]` where each non-blank text run was, and record the
   placeholder and the run in two parallel lists. The walk appends these to
   the document-wide `nerIdentifierList` and `nerDataList`.
2. `nerProcessPipeLine` turns every run into an annotated text. The first
   token of each `ORG` entity becomes `<ner type='ORG'>…</ner> `, and the
   entity's other tokens become empty.
3. Pass two replaces, in each eligible leaf, placeholder `i` by result `i`
   for `i = 0, 1, …`, using `str.replace`.

A leaf is eligible exactly when the loop over its immediate parent passes
`isLast` true for it. For an object this is the last key, unless that key is
`mmmsss`. For an array it is the last index. The root is walked with `False`,
so a bare string document is never touched.

The Dafny modules follow this structure:

- `PyStr`: the Python `str` operations used: `isspace`, `strip`, `str(n)` and `replace`. It also defines `Occurs`, Python's `p in s`, which the program does not call; the model uses it to state when the replacement is safe.
- `Splitter`: `MyHTMLParser` as a class with the same five fields (the four mutable
  ones and the constant key `identifierKey`), driven by
  an event stream. Pure functions describe what the callbacks produce: the
  *pieces* of a leaf (literal markup and run slots) and their rendering.
- `Reinsert`: the placeholder replacement loop of pass two, and the theorem
  that it puts every result exactly where its run was.
- `Ner`: the word-list assembly of `nerProcessPipeLine` over an abstract
  recognizer output (tokens with trailing whitespace, and labelled entities).
- `Walker`: `recursiveLook` as a class `Session`. Its fields `ids`, `frags` and
  `results` are the entries of the shared `data` dictionary besides `obj`; its
  field `made` is not an entry of `data` but counts the `uuid4` draws made so
  far, one per `MyHTMLParser` created. It is specified by a function
  `Look` over a `Tree` datatype. The module also holds the lemmas about both
  passes.
- `Driver`: `processEsDoc` without the index, and the end-to-end theorem. After both
  passes, every eligible leaf is its rebuilt markup (the normalized text of its event stream: `ner` tags dropped, start tags rebuilt with only the last truthy attribute) with every run replaced by the recognizer's annotation of it, and
  nothing else in the document has changed.

The code makes a new `MyHTMLParser` for every eligible leaf. Each leaf
therefore draws a new `uuid4` key and restarts the counter at 0 (es_ner.py:50,
es_ner.py:129). No key is shared across a document. The model gives
splitter number `k` of a document the key `uuids(k)`. Placeholders differ
across leaves because their keys differ, and within a leaf because their
counters differ. Start tags keep only the last attribute with a truthy value:
the loop overwrites `attributes` (es_ner.py:63) instead of accumulating it.

## Model

| member | source | states |
|---|---|---|
| PyStr.AllSpaceAt | es_ner.py:71 | the recursive whitespace test holds exactly when every character is one of the characters Python's `isspace` accepts |
| PyStr.StripSpec | es_ner.py:64 | `strip()` returns the infix of its input that is left after removing whitespace on both sides; if non-empty, it neither starts nor ends with whitespace |
| PyStr.DecimalRoundTrip | es_ner.py:73 | rendering the counter in decimal and reading it back gives the counter |
| PyStr.DecimalInjective | es_ner.py:73 | different counters render as different digit strings |
| PyStr.ReplaceSkip | es_ner.py:125 | `replace` copies a prefix in which no occurrence of the pattern starts, and continues on the rest |
| PyStr.ReplaceAbsent | es_ner.py:125 | `replace` of a non-empty pattern that does not occur leaves the string unchanged |
| PyStr.ReplaceFront | es_ner.py:125 | an occurrence at the front is replaced, and the scan resumes right after it |
| Splitter.LastAttrTextLast | es_ner.py:55-63 | when attribute `j` is the last with a truthy value, the loop's `attributes` is that attribute alone: `name=v ` if `v` is numeric, `name='v' ` otherwise |
| Splitter.LastAttrTextNone | es_ner.py:56-60 | when every attribute value is falsy, `attributes` stays empty, so the tag is rebuilt as `<tag >` |
| Splitter.CollectAttributes | es_ner.py:55-63 | the attribute loop, which skips falsy values and overwrites on truthy ones, computes the last-truthy-attribute text |
| Splitter.IdentifierInjective | es_ner.py:73 | two placeholders are equal only if both their keys and their counters are equal; the key ends at the last `-` since the counter has only digits |
| Splitter.LocalIdsDistinct | es_ner.py:73-77 | the placeholders one parser issues are pairwise distinct |
| Splitter.IdentifierBracketed | es_ner.py:73 | a key without brackets gives a placeholder that starts with `[`, ends with `]` and has no bracket inside |
| Splitter.Parser.constructor | es_ner.py:44-50 | a new parser has empty `data`, empty lists, counter 0 and the given key, and satisfies the list-and-counter invariant |
| Splitter.Parser.HandleStartTag | es_ner.py:52-64 | a `ner` start tag appends nothing; any other appends `<tag X>` with X the stripped last-truthy-attribute text; only `data` changes |
| Splitter.Parser.HandleEndTag | es_ner.py:65-68 | a `ner` end tag appends nothing; any other appends exactly `</tag>`; only `data` changes |
| Splitter.Parser.HandleData | es_ner.py:70-79 | a non-empty, non-whitespace run appends `[key-count]` to `data` and to the placeholder list, appends the run to the run list, and increments the counter; any other text is appended to `data` verbatim with lists and counter unchanged; both lists keep length `identifierCount`, and placeholder `i` is `[key-i]` |
| Splitter.Parser.HandleEvent | es_ner.py:52-79 | one callback appends its pieces: the counter grows by its slots, `data` by their rendering with the parser's placeholders, and the run list by their runs |
| Splitter.Parser.Feed | es_ner.py:129-130 | after a leaf's whole event stream, `data`, the run list and the counter are extended by the stream's pieces in order, and the invariant still holds |
| Splitter.RenderRunsInPlace | es_ner.py:52-79 | putting every run back into its own slot gives the normalized text of the leaf's event stream, with `ner` tags dropped and start tags rebuilt: the text of the event stream is kept |
| Reinsert.ReplaceIdentifiers | es_ner.py:122-126 | the replacement loop applies `replace(identifier_i, result_i)` for `i` in index order |
| Reinsert.ReplaceSeqAbsent | es_ner.py:122-126 | a leaf in which no placeholder occurs comes out of the loop unchanged |
| Reinsert.ReplaceRestoresSlots | es_ner.py:122-126 | if placeholders are pairwise distinct and bracketed, and none of them occurs in the final text, replacing them in order into the markup rendered with placeholders gives the markup rendered with the results |
| Ner.NerResults | es_ner.py:147-170 | one annotated text per input, in input order |
| Ner.NerResultsSlice | es_ner.py:148-168 | each input's result depends on that input alone: a stretch of the inputs gives the same stretch of the results |
| Ner.NerDocument | es_ner.py:149-168 | the three loops (word list, entity marking, concatenation) compute the annotated text of one recognized document |
| Ner.MarkEntity | es_ner.py:160-162 | an organisation's first token becomes `<ner type='ORG'>text</ner> ` and the rest of its span becomes empty |
| Ner.NerPipeline | es_ner.py:139-170 | the returned list holds, in order, the annotated text of every input |
| Ner.NoOrgIsPlain | es_ner.py:156-158 | entities other than organisations leave the word list unchanged |
| Ner.NerTextPlain | es_ner.py:149-166 | a text whose tokens with whitespace spell it again, and that has no organisation, comes back unchanged |
| Ner.EntityEffects | es_ner.py:156-162 | with non-overlapping organisations, each word is the marker (first token of an organisation), empty (rest of its span) or the original token with its whitespace |
| Walker.FlagIsLast | es_ner.py:100-112 | in a well-formed object the `isLast` passed to entry `j` is true exactly when `j` is the last entry and its key is not `mmmsss`; in an array, exactly when `j` is the last index |
| Walker.Look | es_ner.py:92-137 | the walk never changes whether results exist, and in pass two it leaves the lists and the splitter count unchanged |
| Walker.LookKids | es_ner.py:102-116 | walking a container's children gives one new child per child |
| Walker.Session.constructor | es_ner.py:191-195 | the walk starts with empty lists, no results and no splitter made |
| Walker.Session.RecursiveLook | es_ner.py:92-137 | the method computes the new value and the new shared state that `Look` specifies |
| Walker.Session.LookDict | es_ner.py:100-109 | the object loop walks each entry in key order with the flag of `FlagAt` and writes each result back under its key |
| Walker.Session.LookList | es_ner.py:110-116 | the array loop walks each item in order, flagging the last, and writes each result back at its index |
| Walker.Session.LookLeaf | es_ner.py:117-136 | an eligible string is replaced in pass two, or in pass one split by a fresh parser whose lists are appended to the shared lists |
| Walker.ShapeKeeps | es_ner.py:102-116 | changing only eligible strings into strings keeps the value well formed, and keeps its eligible leaves strings |
| Walker.ShapeTrans | es_ner.py:102-116 | two such shape-preserving rewrites compose into one |
| Walker.Pass1 | es_ner.py:128-134 | pass one appends, in document order, the placeholders and runs of every eligible leaf, one splitter per leaf; eligible leaves become their skeletons; everything else is unchanged |
| Walker.Pass2 | es_ner.py:119-126 | pass two replaces placeholders in every eligible leaf and changes nothing else, including the state |
| Walker.CollectBlock | es_ner.py:129-134 | leaf `k`'s skeleton is made with key `uuids(made + k)` (`uuids(k)` for a walk that starts with no splitter made); its placeholders and runs sit side by side in the document lists from its offset on; its skeleton is its pieces rendered with those placeholders |
| Walker.CollectKeys | es_ner.py:129-133 | every document placeholder is placeholder `slot` of some splitter used for the document |
| Walker.CollectDistinct | es_ner.py:129-133 | pairwise different keys give pairwise different placeholders across the whole document |
| Walker.CollectBracketed | es_ner.py:129-133 | bracket-free keys give bracketed placeholders across the whole document |
| Driver.WithResults | es_ner.py:203 | pass two starts with pass one's lists and one result per run |
| Driver.StartPass1 | es_ner.py:191-199 | pass one from the empty lists leaves the document's collected placeholders and runs, and one splitter per eligible leaf |
| Driver.ProcessDoc | es_ner.py:189-207 | collection, recognition and replacement, run on one session, produce the document that `Processed` specifies |
| Driver.LeafAnnotated | es_ner.py:117-134 | replacing every document placeholder in leaf `k`'s skeleton gives that leaf annotated on its own, under the key and absence conditions |
| Driver.ProcessedAnnotates | es_ner.py:189-207 | when keys are pairwise different and bracket-free, and no placeholder occurs in any annotated leaf: both passes keep the document's shape, leave every non-eligible value unchanged, and turn eligible leaf `k` into its rebuilt markup (the normalized text of its event stream: `ner` tags dropped, start tags rebuilt with only the last truthy attribute) with every run replaced by the recognizer's annotation of it |
| Driver.AnnotatedIdentity | es_ner.py:189-207 | a recognizer that gives every run back unchanged gives back the normalized text of each leaf's event stream (`ner` tags dropped, start tags rebuilt) |

## Left out

- Logging (`log`, `datetime`, `print`, es_ner.py:24-29) is console output and is not modelled.
- Elasticsearch is not modelled: the paging loop `es_iterate_all_documents`, the `es.index` write-back and `main` are network client code.
- spaCy is a parameter `nlp: string -> Doc` giving tokens (text and trailing whitespace) and labelled entities. Model loading and `select_pipes` are not modelled. The model assumes every organisation span lies within the document's tokens (`NlpFits`); Python would raise on an out-of-range index instead.
- `HTMLParser` tokenization is a parameter `tokenize: string -> seq<Event>`. Lower-casing, character-reference unescaping, splitting a text over several `handle_data` calls, and the flushing done by `close()` (es_ner.py:136) are library behaviour that is not modelled. `parser.data` and the parser's lists are read (es_ner.py:132-134) before `parser.close()` runs (es_ner.py:136), and CPython's `feed` can hold back trailing text (for example after an `&` with no later whitespace or `;`) until `close()`; such text never reaches the leaf or `nerDataList`. `tokenize` stands for the events `feed` alone delivers, so the model drops that text as the program does. `MyHTMLParser` overrides only `handle_starttag`, `handle_endtag` and `handle_data` (es_ner.py:52-79). The inherited no-op `handle_comment`, `handle_decl`, `handle_pi` and `unknown_decl` drop comments, declarations (`<!DOCTYPE …>`) and processing instructions from the leaf, and the inherited `handle_startendtag` turns `<br/>` into a start tag and an end tag (`<br ></br>`). `Event` has no constructor for the dropped constructs: `tokenize` must leave them out and split a self-closing tag into its start and end tag, so the model's round-trip lemmas speak of the event stream's text, not of the leaf's full markup.
- `isfloat` (es_ner.py:81-90) is a parameter `isFloat: string -> bool`. Python's exact float syntax is not modelled.
- `uuid.uuid4()` is a parameter `uuids: nat -> string`. The keys' pairwise uniqueness and the absence of every placeholder from the annotated leaves are preconditions of `Driver.ProcessedAnnotates`, not proved facts: they hold only with high probability. That the keys are bracket-free is always true of `str(uuid4())`, which is hex digits and hyphens; it is a precondition only because `uuids` is left unconstrained.
- Walker.Session.RecursiveLook: an eligible value that is not a string makes `feed` or `replace` raise. The model requires eligible leaves to be strings (`LeavesOk`), except in pass two with an empty placeholder list, where the loop never runs.
- Walker.Session.RecursiveLook: the document is a value. The in-place writes `obj[key] = …` and `obj[i] = …` become an updated copy that the method returns, so aliasing between parts of the document is not modelled.
- Entities are given as a list. spaCy's guarantee that they do not overlap is a separate precondition (`OrgsDisjoint`), which only `Ner.EntityEffects` uses.
