# A verified model of the multi-agent code generator's deterministic core

The application turns a natural-language request into code by chaining five
language-model agents:
- requirement analysis;
- code generation;
- code review;
- documentation;
- test generation.

A Streamlit page (`app.py`) runs the pipeline and keeps a conversation
context, so that a later prompt can be classified as a follow-up to the
previous one.

This project models, in Dafny, everything around the language-model calls
that the code decides by itself:

- **the retry loop** every agent wraps around its call. A call is tried at most
  three times, with sleeps of 1 and then 2 seconds between attempts. Which
  replies count as failures differs per agent (`Invoker`, and the `Judge` of
  each agent module);
- **code-fence extraction** (`CodeFences`): the ```python blocks, then the
  generic blocks, then the stripped reply. Also the agents' length-ratio
  safety nets (`CodingAgent`, `TestAgent`);
- **the requirement agent's post-processing** (`RequirementAgent`):
  - the local ambiguity score;
  - the priority-ordered language detection;
  - the JSON span and the fallback record;
  - the normalisation of the clarifying questions;
  - the final language and the React upgrade;
  - the follow-up context it quotes;
- **prompt choice and verdict**: the coding agent's prompt choice, and the
  reviewer's APPROVED verdict (`ReviewAgent`);
- **the requirement text** the agents build (`Records`);
- **the page's helpers**:
  - follow-up detection and its keyword heuristic (`FollowUp`);
  - the extension tables and the default file name (`Downloads`);
  - the split of generated code into files (`MultiFile`);
  - the split of generated tests into unit and integration tests (`TestSections`);
  - the conversation context of the page (`Session`, a class whose methods
    update its fields as the page updates its session state).

Modelling choices:
- The language model's replies are inputs. A reply is one of:
  - no reply (`None`);
  - an exception with its message;
  - a string;
  - a dictionary with its entries and its printed form.
- Sleeps are a ghost log of durations.
- JSON decoding is a function parameter.

`Outcomes` holds the Option and Result types. `Text` holds stripping, case
mapping, searching, splitting and joining, with the lemmas about them.
`WordPatterns` models the `\b…\b` word patterns the requirement agent
searches for.

## Model

| member | source | states |
|---|---|---|
| Invoker.ContentOrTextOf | agents/coding_agent.py:197-201 | a dictionary reply's text is its "content", else its "text", else its printed form |
| Invoker.Run | agents/coding_agent.py:184-221 | the loop makes 1 to 3 calls and stops at the first accepted reply. It fails exactly when every call was rejected, with the last reason inside "… failed after 3 attempts: …". After each rejected call except the last it sleeps 2^attempt |
| Invoker.Invoke | agents/coding_agent.py:184-221 | the imperative loop returns the outcome, the call count and the sleeps that Run specifies |
| Invoker.WaitSchedule | agents/coding_agent.py:190-194 | the sleeps are a prefix of [1, 2]: one fewer than the calls |
| Invoker.AcceptedIsNonBlank | agents/coding_agent.py:223-227 | when every accepted text is non-blank, the loop's text is non-blank, so the `if not code` check after the loop cannot raise |
| CodeFences.Opener | agents/coding_agent.py:278 | both fence openers begin with three backticks |
| CodeFences.BodyStart | agents/coding_agent.py:278 | the body starts just after a newline, and only tag letters and white space lie between the opener and it (`\s*\n` backtracking to the last newline) |
| CodeFences.BodyEnd | agents/coding_agent.py:278 | the lazy body stops at the first position where three backticks follow, where the text ends, or just before a final line break |
| CodeFences.CollectBlocks | agents/coding_agent.py:280-284 | one finditer loop collects the stripped, non-empty bodies of every match, in order |
| CodeFences.BlocksStripped | agents/coding_agent.py:282-284 | every collected block is non-empty and stripped |
| CodeFences.LooksLikeCode | agents/coding_agent.py:298-304 | the first line of the stripped content opens with "import ", "from ", "def ", "class " or "#", or one of its first five lines, stripped, opens with "def ", "class ", "import " or "from " |
| CodeFences.LooksLikeCodeCases | agents/coding_agent.py:298-304 | blank content never looks like code, and content whose stripped text opens with "import ", "from ", "def ", "class " or "#" always does |
| CodeFences.ExtractCodeBlocks | agents/coding_agent.py:266-315 | "" gives "". Otherwise: the python blocks joined by a blank line; failing those, the generic blocks joined; failing those, the stripped content |
| CodeFences.ExtractStripped | agents/coding_agent.py:266-315 | the extraction is stripped, and is empty exactly when the content is blank |
| CodeFences.ExtractNonBlank | agents/coding_agent.py:266-315 | a non-blank reply never extracts to a blank text |
| CodeFences.JoinStripped | agents/coding_agent.py:309-312 | blocks joined with "\n\n" stay stripped and non-empty |
| CodeFences.BlankHasNoFence | agents/coding_agent.py:278-293 | blank content has no fenced block |
| CodeFences.FencedBlocks | agents/coding_agent.py:278-293 | one fenced block yields exactly its body: under the generic fence for any letter tag, under the python fence for the tag python |
| CodeFences.NoPythonBlocks | agents/coding_agent.py:278-284 | a block tagged other than "python" gives no python block |
| CodeFences.ExtractFenced | agents/test_agent.py:430-479 | round trip: a non-empty stripped text without backticks, fenced with any letter tag, extracts to itself |
| CodingAgent.ChoosePrompt | agents/coding_agent.py:105-175 | review feedback selects the revision prompt. Earlier code selects the modification prompt only without feedback. Otherwise the plain prompt |
| CodingAgent.FeedbackWins | agents/coding_agent.py:105-175 | with feedback, the earlier code makes no difference |
| CodingAgent.Judge | agents/coding_agent.py:190-211 | None, an exception or a blank text is rejected with the source's messages. A non-blank text is accepted as it is |
| CodingAgent.SafetyNet | agents/coding_agent.py:236-244 | a much shorter extraction of a long reply that looks like code gives way to the stripped reply. Otherwise a non-empty extraction stays, and an empty one gives way to the stripped reply |
| CodingAgent.FormatRequirements | agents/coding_agent.py:246-264 | the four bullet sections, in order |
| CodingAgent.GenerateCode | agents/coding_agent.py:84-244 | the chosen prompt, and the code or error that Generated specifies. Returned code is never blank |
| CodingAgent.GeneratedNonBlank | agents/coding_agent.py:223-244 | generated code is never blank |
| CodingAgent.FencedReplyGivesCode | agents/coding_agent.py:229-244 | a first reply that is one fenced python block yields its body |
| CodingAgent.GeneratedFailure | agents/coding_agent.py:184-221 | generation fails exactly when all three attempts are rejected, with the message "API call failed after 3 attempts: …" |
| Records.BulletLines | agents/coding_agent.py:248-250 | one "- item" line per item |
| Records.AppendBullets | agents/coding_agent.py:248-250 | the loop appends one "- item\n" per item, in order |
| Records.BulletsAppend | agents/coding_agent.py:246-264 | the bullets of a concatenation are the concatenation of the bullets |
| Records.BulletsRoundTrip | agents/coding_agent.py:248-250 | reading the bullet lines back gives the items, when no item holds a newline |
| Records.FormatBrief | agents/review_agent.py:121-131 | the functional and non-functional sections |
| Records.BriefReadsBack | agents/documentation_agent.py:239-249 | the shared text starts with the functional bullets, and these read back to the functional requirements |
| Records.FullExtendsBrief | agents/coding_agent.py:246-264 | the coding agent's text extends the one the other agents share |
| TestAgent.TestSafetyNet | agents/test_agent.py:298-309 | a short extraction of a long reply gives way to the stripped reply only when the reply looks like test code |
| TestAgent.FinalFallback | agents/test_agent.py:311-313 | a non-empty code stays. An empty one becomes the extraction |
| TestAgent.Judge | agents/test_agent.py:270-320 | None, an exception or a blank reply is rejected with the source's messages. An accepted reply gives its extraction after both safety nets |
| TestAgent.TestCodeNonBlank | agents/test_agent.py:293-313 | a non-blank reply always yields non-blank test code |
| TestAgent.NoEmptyExtraction | agents/test_agent.py:315-320 | an attempt is accepted exactly when the reply is text and not blank. The empty-extraction error is never raised by the agent itself |
| TestAgent.GenerateTests | agents/test_agent.py:264-338 | the test code or error that GeneratedTests specifies. Returned tests are never blank |
| TestAgent.FencedReplyGivesTests | agents/test_agent.py:293-313 | a first reply that is one fenced python block yields its body |
| TestAgent.FindingLine | agents/test_agent.py:367-423 | a finding's line is never empty and never begins like the single-module sentence |
| TestAgent.ModulesSummary | agents/test_agent.py:425-428 | the summary is never empty, and is the single-module sentence exactly when nothing was found |
| ReviewAgent.Judge | agents/review_agent.py:97-114 | only None and exceptions are rejected. Any text, even empty, is accepted |
| ReviewAgent.Judgement | agents/review_agent.py:115-119 | the feedback is the stripped reply. Approval holds exactly when it starts with "APPROVED" in any (ASCII) case |
| ReviewAgent.JudgementIdempotent | agents/review_agent.py:115-119 | judging the feedback again gives the same verdict |
| ReviewAgent.ApprovedVerbatim | agents/review_agent.py:115-119 | a stripped reply starting with "APPROVED" is approved, with itself as feedback |
| ReviewAgent.ApprovedAnyCase | agents/review_agent.py:115-119 | "approved" in any case is approval too |
| ReviewAgent.ApprovedAfterSpaces | agents/review_agent.py:115-119 | leading white space does not prevent approval, and is dropped from the feedback |
| ReviewAgent.RejectedVerbatim | agents/review_agent.py:115-119 | a stripped reply not starting with 'A' or 'a' is rejected, with itself as feedback |
| ReviewAgent.Review | agents/review_agent.py:57-119 | the requirement text and the verdict or error that Reviewed specifies |
| ReviewAgent.EmptyReplyNotRetried | agents/review_agent.py:107-119 | an empty first reply is accepted at once and yields (false, "") |
| ReviewAgent.ReviewedFailure | agents/review_agent.py:95-114 | the review fails exactly when all three replies are None or exceptions, with "Review API call failed after 3 attempts: …" |
| DocumentationAgent.Judge | agents/documentation_agent.py:205-219 | None, an exception or a blank "content" is rejected. The "text" entry is never consulted |
| DocumentationAgent.ContentlessDictRetried | agents/documentation_agent.py:212-219 | a dictionary reply without "content" is rejected as empty |
| DocumentationAgent.GenerateDocumentation | agents/documentation_agent.py:199-237 | the requirement text and the documentation or error that Documented specifies. Returned documentation is never blank |
| DocumentationAgent.DocumentedVerbatim | agents/documentation_agent.py:212-237 | the documentation is the accepted reply's text, unstripped and non-blank |
| RequirementAgent.DetectAmbiguity | agents/requirement_agent.py:294-331 | the vague count is at most 7 and the missing count at most 4. The vague count is the number of vague groups that match and the missing count the number of specification groups that do not. Ambiguous exactly when vague > 2, missing > 2 or the stripped input is under 50 characters. Each count is 0 or full exactly when the groups all fail or all match |
| RequirementAgent.ShortIsAmbiguous | agents/requirement_agent.py:321-324 | every input under 50 stripped characters is ambiguous |
| RequirementAgent.UnspecifiedIsAmbiguous | agents/requirement_agent.py:314-324 | an input naming none of the four specification groups is ambiguous |
| RequirementAgent.LanguageTable | agents/requirement_agent.py:346-434 | thirteen languages, each with a name |
| RequirementAgent.FirstMatching | agents/requirement_agent.py:436-448 | the first language in the table with a matching pattern, or none |
| RequirementAgent.DetectLanguage | agents/requirement_agent.py:333-448 | language detection, with the C++ and C# patterns corrected, never returns an empty name |
| RequirementAgent.DetectLanguageAsWritten | agents/requirement_agent.py:333-448 | language detection as written, which `analyze` uses, never returns an empty name |
| RequirementAgent.DetectionOrder | agents/requirement_agent.py:436-448 | the detected language is the first in priority order with a match, or "python" when none matches |
| RequirementAgent.CppMissedAsWritten | agents/requirement_agent.py:391-397 | as written, "c++" alone is detected as "python" |
| RequirementAgent.CppFoundCorrected | agents/requirement_agent.py:391-397 | with the corrected pattern, "c++" is detected as "cpp" |
| RequirementAgent.CsharpMissedAsWritten | agents/requirement_agent.py:398-403 | as written, "c#" alone is detected as "python" |
| RequirementAgent.CsharpFoundCorrected | agents/requirement_agent.py:398-403 | with the corrected pattern, "c#" is detected as "csharp" |
| RequirementAgent.NothingBeforeCsharp | agents/requirement_agent.py:346-397 | no language before C# in the table, C++ included, matches "c#" |
| RequirementAgent.NothingBeforeCpp | agents/requirement_agent.py:346-390 | no language before C++ in the table matches "c++" |
| RequirementAgent.Tagged | agents/requirement_agent.py:260-265 | a given tag is returned lower-cased; a missing or empty tag gives the language detected with the patterns as written. Never empty |
| RequirementAgent.FinalLanguage | agents/requirement_agent.py:259-274 | the final language is lower-case and never empty. "javascript" becomes "react" exactly when the input mentions React |
| RequirementAgent.TagKept | agents/requirement_agent.py:263-274 | a present tag other than JavaScript is kept, lower-cased |
| RequirementAgent.ReactUpgrade | agents/requirement_agent.py:267-271 | JavaScript becomes React exactly when the input mentions react, jsx, reactjs or react.js |
| RequirementAgent.UntaggedCppIsPython | agents/requirement_agent.py:259-274 | without a tag, an input that is just "c++" reaches the result record as "python" |
| RequirementAgent.JsonSpan | agents/requirement_agent.py:227-230 | a span exists exactly when some '{' precedes some '}'. It runs from the first '{' to the last '}' |
| RequirementAgent.BraceOrder | agents/requirement_agent.py:227-229 | some '{' before some '}' puts the first '{' before the last '}' |
| RequirementAgent.Fallback | agents/requirement_agent.py:450-467 | the reply is the one functional requirement, the language is python and ambiguity is set, with one stock question |
| RequirementAgent.Decoded | agents/requirement_agent.py:226-236 | no span, or a span that does not decode, gives the fallback. Otherwise the decoded object |
| RequirementAgent.Normalize | agents/requirement_agent.py:243-257 | an object gives the one triple of its question, assumption and code, each "" when missing; a string gives the one triple of itself with the default assumption and code; anything else gives none |
| RequirementAgent.NormalizeQuestions | agents/requirement_agent.py:240-257 | the loop yields the normalised list |
| RequirementAgent.NormalizedAppend | agents/requirement_agent.py:243-257 | normalisation keeps the order of the items |
| RequirementAgent.AsItems | agents/requirement_agent.py:246-250 | triples written back as objects with all three keys |
| RequirementAgent.NormalizedIdempotent | agents/requirement_agent.py:240-257 | normalising normalised questions gives them back |
| RequirementAgent.NormalizedLength | agents/requirement_agent.py:243-257 | only items that are neither objects nor strings are dropped |
| RequirementAgent.Interpret | agents/requirement_agent.py:240-285 | the result record: every list field is its decoded value, or [] when missing. The questions are the normalised list. Ambiguity and notes are their values, or false and "". The language is the final language: lower-case and non-empty |
| RequirementAgent.InterpretRoundTrip | agents/requirement_agent.py:240-285 | a complete object written from a record with a final language reads back as that record |
| RequirementAgent.FallbackRecord | agents/requirement_agent.py:450-467 | the fallback's result record, field by field |
| RequirementAgent.CodeSummary | agents/requirement_agent.py:127 | code up to 200 characters is quoted whole. Longer code gives its first 200 characters and "..." |
| RequirementAgent.FirstThree | agents/requirement_agent.py:124 | at most the first three requirements |
| RequirementAgent.ContextSection | agents/requirement_agent.py:111-129 | the section is present exactly for an active context with prompts or results, and then starts with the heading |
| RequirementAgent.SectionQuotes | agents/requirement_agent.py:119-128 | an active context's section contains the last previous prompt, the first three previous functional requirements joined with ", ", the previous code's summary and the follow-up note, each when there is one |
| RequirementAgent.OnlyLastPrompt | agents/requirement_agent.py:119-120 | earlier prompts make no difference |
| RequirementAgent.OnlyFirstThree | agents/requirement_agent.py:122-124 | requirements after the third make no difference |
| RequirementAgent.OnlyCodePrefix | agents/requirement_agent.py:125-128 | code after the 200th character makes no difference |
| RequirementAgent.Judge | agents/requirement_agent.py:189-206 | None, an exception or a blank "content" is rejected with the source's messages. Non-blank content is accepted |
| RequirementAgent.Analyze | agents/requirement_agent.py:94-292 | the ambiguity score, the context section, and the record or error that Analyzed specifies |
| RequirementAgent.UnstructuredReply | agents/requirement_agent.py:226-236 | a first reply with no '{' before a '}' gives the fallback record around the reply |
| WordPatterns.TrailAfterSymbol | agents/requirement_agent.py:392 | `\b…\b` around a text ending in '+' or '#' matches only where a word character follows |
| WordPatterns.CountMatching | agents/requirement_agent.py:321 | the count is the number of groups that match, at most the number of groups |
| WordPatterns.CountFailing | agents/requirement_agent.py:322 | the count is the number of groups that do not match, and with the matching count makes up all the groups |
| WordPatterns.CountExtremes | agents/requirement_agent.py:304-319 | a count of matching groups is 0, or all of them, exactly when every group fails, or every group matches |
| FollowUp.KeywordCount | app.py:217 | the count is the number of keywords that occur in the prompt: at most their number, and 0 exactly when none occurs |
| FollowUp.TwoKeywords | app.py:217-225 | the count reaches 2 exactly when two different keywords occur |
| FollowUp.Heuristic | app.py:205-231 | a follow-up exactly when: a short prompt has a keyword; or there are two keywords; or there is an explicit reference |
| FollowUp.HeuristicIgnoresPrevious | app.py:214 | the previous prompt makes no difference |
| FollowUp.SubstringKeyword | app.py:217 | keywords match as substrings: "write a sort function" counts as a follow-up ("it" in "write") |
| FollowUp.DetectFollowUp | app.py:131-202 | never a follow-up without an active context with prompts. Otherwise the classifier's FOLLOWUP / FOLLOW-UP answer, or the heuristic when it gives nothing or raises |
| FollowUp.PaddedAnswer | app.py:192-195 | a padded lower-case "followup" answer counts |
| FollowUp.NewAnswer | app.py:192-195 | the answer "NEW" does not count |
| FollowUp.AnswerDecides | app.py:192-195 | a usable answer decides alone |
| FollowUp.ContentlessAnswer | app.py:192-195 | a non-empty dictionary without "content" is read as "" and is not a follow-up |
| Downloads.Extension | app.py:379 | no '.' gives "". Otherwise the lower-cased text after a '.', with no '.' in it |
| Downloads.LastPiece | app.py:379 | the last piece of a split on a character is the text after its last occurrence |
| Downloads.LanguageOf | app.py:369-408 | the table's language, or "python" for any other extension |
| Downloads.MimeTypeOf | app.py:411-449 | the table's MIME type, or "text/plain" for any other extension |
| Downloads.MimeKeys | app.py:423-447 | the MIME table covers every extension of the language table except "jsx" |
| Downloads.NoDotDefaults | app.py:379-449 | a name without '.' gives python and text/plain |
| Downloads.JsxHasNoMime | app.py:381-449 | "jsx" is javascript but text/plain |
| Downloads.UnknownExtension | app.py:408-449 | an unknown extension gives python and text/plain |
| Downloads.CaseIgnored | app.py:379 | lower-casing the name changes neither the extension, the language nor the MIME type |
| Downloads.ExtensionFor | app.py:472-488 | the table's extension of the lower-cased language, or "py" |
| Downloads.DefaultFileName | app.py:488-489 | the name starts with "generated_code." and its extension reads back as the language's saved extension ("py" for a language not in the table) |
| Downloads.DefaultNameRoundTrip | app.py:472-489 | the default file name reads back as its language (React as javascript) |
| Downloads.TablesAgree | app.py:381-405 | every saved extension maps back to its language, except React's, which maps to javascript |
| Downloads.SavedExtensionsPlain | app.py:472-487 | every saved extension is lower-case and dot-free |
| MultiFile.SectionEnd | app.py:532-539 | a section ends at the next marker, or at the end of the code |
| MultiFile.Candidates | app.py:523-542 | one candidate file per marker |
| MultiFile.Keep | app.py:547-551 | every kept file is a candidate with a name and content, and there are no more kept files than candidates |
| MultiFile.KeepAppend | app.py:523-551 | keeping commutes with concatenation |
| MultiFile.KeepMembers | app.py:547-551 | a file is kept exactly when it is a candidate with a name and content |
| MultiFile.SectionShape | app.py:528-545 | a section has no leading or trailing line breaks, and occurs in the code between its marker and the next |
| MultiFile.SkippedBreaks | app.py:528-545 | skipping breaks at both ends and then stripping them gives the same text as stripping the whole section |
| MultiFile.SectionAt | app.py:524-545 | the two while loops give the section the specification function defines |
| MultiFile.KeptPrefix | app.py:523-551 | after i markers the loop holds the complete candidates of the first i markers |
| MultiFile.SplitAtMarkers | app.py:518-551 | the marker loop gives the complete candidate files, in marker order |
| MultiFile.Flush | app.py:563-570 | at most one file is saved, complete and stripped |
| MultiFile.SaveCurrent | app.py:563-570 | appends exactly the flushed file, if any, to the list |
| MultiFile.ScanLines | app.py:553-588 | every file the line fallback saves is complete and stripped |
| MultiFile.LineFiles | app.py:553-588 | the fallback's files, complete and stripped |
| MultiFile.ScanFallback | app.py:553-588 | the imperative fallback gives LineFiles |
| MultiFile.Whole | app.py:605-613 | the whole stripped code under the default name, whose extension is the language's saved extension; complete whenever the code is not blank |
| MultiFile.Unmarked | app.py:553-613 | without marker files there is at least one file, and every file has a name and content |
| MultiFile.Parse | app.py:456-613 | never an empty list. Blank code is one default-named file holding the code. Otherwise every file has a name and content |
| MultiFile.ParseMultipleFiles | app.py:452-613 | the imperative parser gives Parse |
| MultiFile.SecondPatternIgnored | app.py:508-516 | looser markers are not consulted when a "# File:" marker exists |
| MultiFile.MarkersWin | app.py:518-554 | when the markers give files, they are the result |
| TestSections.SkipSpaces | app.py:822 | the first non-white-space position |
| TestSections.IsMarker | app.py:804-814 | one recogniser for the three IGNORECASE patterns of each kind (they differ only in letter case and the optional "s"): '#', white space, the word, at least one white-space character, "test", matched as a prefix of the stripped line. Letter case is folded for ASCII letters only |
| TestSections.MarkerShape | app.py:804-814 | every line of the patterns' shape (blank, '#', blank, the word in any ASCII case, non-empty white space, "test" in any ASCII case, anything) is a marker |
| TestSections.MarkerNotBlank | app.py:804-814 | a marker line is not blank |
| TestSections.MarkersDiffer | app.py:804-814 | no line is both a unit and an integration marker |
| TestSections.FirstMarker | app.py:821-830 | the first marker line, or none |
| TestSections.NoteMarker | app.py:821-830 | a marker index, once found, is the first marker line. Until then no line so far is a marker |
| TestSections.Segment | app.py:836-849 | a section is stripped |
| TestSections.TestTypes | app.py:788-854 | blank input gives ("", ""). Both halves are stripped |
| TestSections.SectionRanges | app.py:831-849 | each section runs from its own marker to the other marker, or to the end. With one marker the other section is empty. The two markers are on different lines |
| TestSections.FindMarkers | app.py:816-830 | the loop finds the first unit and the first integration marker |
| TestSections.ParseTestTypes | app.py:788-854 | the imperative split gives TestTypes |
| TestSections.NoMarkers | app.py:851-854 | without markers, the whole stripped text is the unit tests |
| TestSections.SegmentStartsWithMarker | app.py:836-849 | a section opened by a marker starts with the stripped marker line |
| TestSections.SectionsStartAtMarkers | app.py:832-850 | each half found starts with its first marker line |
| TestSections.SectionsCoverText | app.py:831-841 | with both markers, the two sections are the stripped joins of consecutive line ranges, which together make the text from the first marker on |
| Session.Classified | app.py:1041-1057 | in an active conversation the verdict is the follow-up detector's; a follow-up needs prompts and keeps the context, and a new prompt resets it. An inactive context is left alone |
| Session.Recorded | app.py:1094-1098 | the prompt is appended, the results kept, the conversation active |
| Session.CoherentKept | app.py:1041-1098 | classifying and recording keep the context fresh, or active with prompts and results |
| Session.FreshNeverFollowsUp | app.py:1041 | without a conversation going on nothing is a follow-up, whatever the classifier would answer |
| Session.PromptHistory | app.py:1041-1098 | after a run, the prompts are the earlier ones plus the new one for a follow-up, and the new one alone otherwise |
| Session.Page.constructor | app.py:250-265 | no results and a fresh context |
| Session.Page.ClearResults | app.py:1008-1017 | no results and a fresh context |
| Session.Page.Submit | app.py:1021-1060 | a blank or short prompt changes nothing. Otherwise the context is classified, and a new prompt clears the results |
| Session.Page.Finish | app.py:1086-1098 | a returned run is shown and recorded. A failed one changes nothing |

## Left out

- `orchestrator.py` and `utils/config.py` are not part of this model. This covers the staged pipeline, the review loop with its cap, and the stop checks. The page's call into the pipeline is an input: its results, or None when it raises.
- `utils/logger.py` is not part of this model: logging is observational output.
- The Streamlit rendering and download packaging are not modelled. This covers the widgets, the progress display, the `processing`/`stop_requested` flags and the input-key counter.
- Agent construction, model configuration and prompt wording are not modelled. Each `generate_reply` call is a reply taken from an input sequence. The three prompts of the coding agent are told apart by what they embed, not by their wording.
- `time.sleep` is a ghost log of durations.
- `json.loads` is a function parameter returning the decoded object or None.
- The decoded requirements object and dictionary replies are taken to be well-typed. List fields hold lists, "programming_language" and "ambiguity_notes" hold strings, and dictionary entries hold strings. What the source does with other JSON values is not modelled:
  - a string "clarifying_questions" is iterated character by character, one question per character;
  - null or a number there raises TypeError out of `analyze`;
  - a non-empty "programming_language" that is not a string raises AttributeError at `.lower()`;
  - a list field present as null is returned as None, not [];
  - a dictionary reply whose "content" is null makes the review agent's `strip()` raise AttributeError outside its retry loop.
- The `ast.parse` analysis of `_identify_modules` is not modelled: the summary is built from an abstract list of findings.
- The marker regular expressions of `_parse_multiple_files` are not implemented. Their matches are inputs: a list of markers (position, name, end of the match) in increasing position order, as `finditer` yields them. The fallback's line regular expression is a function parameter.
- Case mapping and `\w` cover ASCII letters only. `\s` and `str.strip` use a fixed set of white-space characters.
- The ratio 0.3 is the integer comparison 10·extracted < 3·raw; float rounding at the boundary is not modelled.
- The printed form of a dictionary reply is an abstract text that begins with '{' and ends with '}'.
- The ambiguity score is computed and not used further, as in the source. The prompt built from the context section is not modelled beyond the section itself.
- `detect_follow_up`'s classifier call is made once, with no retry. An exception is a reply of the exception kind.
- `TestAgent.Judge`: does not state the accepted test code's relation to the reply as an if-and-only-if. `TestAgent.NoEmptyExtraction` and `TestAgent.TestCodeNonBlank` state it.
- `MultiFile.Parse`: names the files only when the markers give some (`MultiFile.MarkersWin`). Otherwise it states the invariant (non-empty, complete files), not the line fallback's exact output.
- `TestSections.TestTypes`: its own contract states the blank case and stripping only. The line range of each section is stated by `TestSections.SectionRanges`, `TestSections.SectionsCoverText` and `TestSections.NoMarkers`.

## Findings

| source | as written | input that shows it | evidently intended | confidence | as-written member | corrected member |
|---|---|---|---|---|---|---|
| agents/requirement_agent.py:392 | `\bc\+\+\b` needs a word character right after "c++", because '+' is not a word character, so "c++" followed by a space, a full stop or the end is never seen | "c++" is detected as "python" | any "c++" preceded by a word boundary selects cpp | not executed | RequirementAgent.CppMissedAsWritten | RequirementAgent.CppFoundCorrected |
| agents/requirement_agent.py:399 | `\bc#\b` has the same defect for C#: '#' is not a word character | "c#" is detected as "python" | any "c#" preceded by a word boundary selects csharp | not executed | RequirementAgent.CsharpMissedAsWritten | RequirementAgent.CsharpFoundCorrected |
