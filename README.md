# Skill strength viewer: a verified model

This project models the core of the "Duolingo Skill Strength Viewer" user
script in `skill-strength.user.js`. The script watches the page. When the
skill tree is shown, it fetches `/vocabulary/overview` and shows a panel with
per-skill strength statistics. The model has two parts:

- **The aggregation pipeline.** It starts from the already parsed vocabulary records
  (`skill`, `skill_url_title`, `strength`, `last_practiced_ms`).
  - `average` and `median` are modelled on exact reals.
  - `countBy` and `groupBy` are loops that fill an insertion-ordered dictionary.
  - `getVocabProperties` takes the current time as a parameter.
  - `calculateSkillStrength` groups, averages and then sorts in place with a stable sort.
  - `handleVocabulary` builds the dead-word and all-word count dictionaries and one row per skill.
- **The readiness state machine** of the MutationObserver callback. It is a
  class `Detector` with the fields `isLoading` and `pendingTimer`, and one
  method per event: a mutation, the debounce timer firing, and a started
  request finishing. A ghost counter `inFlight` tracks requests that have not
  finished yet.

Modules, one file each: `Wrappers` (Option), `Records`, `Sorting` (the
stable in-place sort that `Array.prototype.sort` performs), `Statistics`,
`Dictionaries`, `Vocabulary`, `Observer`.

Behaviour of the script that the model keeps:

- A mutation always clears a pending timer, even when the panel is already
  present (lines 33-35). A new timer is armed only when the panel is absent.
- After a failed request, `cb` is never called and `isLoading` stays set.
  A request fails on a transport error, a status other than 200, a body that
  does not parse, an empty vocabulary, or a display step that throws (the
  sidebar path, line 227). While the page stays on the home
  screen, later timers start no new fetch. The flag is cleared again only in
  two ways: a timer fires away from the home screen, or an earlier request
  that is still outstanding succeeds and its `cb` runs (lines 43 and 174).
- When the display step finds no insertion point (line 238) it only logs;
  `cb()` still runs and clears the flag, so with no panel on the page the
  next home-screen timer fetches again.

## Model

| member | source | states |
|---|---|---|
| Statistics.SumWithin | skill-strength.user.js:244-246 | the `reduce` sum of data within [lo, hi] lies within [n·lo, n·hi] |
| Statistics.SumAppend | skill-strength.user.js:244-246 | the left-fold sum of a concatenation is the sum of the parts' sums |
| Statistics.Average | skill-strength.user.js:243-248 | `None` exactly when the input is empty (reduce without an initial value throws); otherwise the value times the length is the sum |
| Statistics.AverageWithin | skill-strength.user.js:243-248 | the mean lies between any lower and upper bound of the data, so strengths in [0,1] average to a value in [0,1] |
| Statistics.MiddleOf | skill-strength.user.js:256-261 | the middle exists exactly for a non-empty array; on ascending data it lies between the first and the last element, for odd and even lengths alike |
| Statistics.MedianOf | skill-strength.user.js:250-262 | the median exists exactly for non-empty data (an empty array yields NaN) |
| Statistics.Median | skill-strength.user.js:250-262 | sorts the array ascending in place (a permutation of its old content) and returns the median of the old content |
| Statistics.AscendingUnique | skill-strength.user.js:252-254 | two ascending sequences with the same elements are equal, so the sorted array is determined by its multiset |
| Statistics.MedianPermutationInvariant | skill-strength.user.js:250-262 | the median depends only on the multiset of the data |
| Statistics.MedianWithin | skill-strength.user.js:250-262 | the median of non-empty data lies within any bounds of the data |
| Statistics.MedianOddExample | skill-strength.user.js:256-258 | the median of [1,2,3] is 2 |
| Statistics.MedianEvenExample | skill-strength.user.js:256-261 | the median of [1,2,3,4] is 2.5, the mean of the two middle elements |
| Statistics.MedianSingleExample | skill-strength.user.js:256-258 | the median of [5] is 5 |
| Statistics.MedianUnsortedExample | skill-strength.user.js:252-258 | the data is sorted before the middle is taken: median of [3,1,2] is 2 |
| Sorting.SortBy | skill-strength.user.js:215-217 | in-place sort: the result is non-decreasing by the key, a permutation of the input, and every class of equal keys keeps its input order (stable) |
| Sorting.ShiftGreater | skill-strength.user.js:215-217 | the inner pass of one insertion step shifts exactly the elements whose key strictly exceeds the new one, leaving a hole after every element with a key not above it |
| Sorting.InsertNext | skill-strength.user.js:215-217 | one insertion step: the first i+1 elements become sorted, are a permutation of what they were, keep ties in order, and the rest is unchanged |
| Dictionaries.DistinctSpec | skill-strength.user.js:264-281 | the first-occurrence key list has no duplicates and contains exactly the values of the input |
| Dictionaries.LookupCount | skill-strength.user.js:129 | reading a count dictionary with a default of 0 for an absent key gives exactly the number of occurrences of the key |
| Dictionaries.CountBy | skill-strength.user.js:264-273 | keys are exactly the distinct values in first-occurrence order; each count is the number of occurrences (so at least 1); the counts sum to the array length |
| Dictionaries.GroupBy | skill-strength.user.js:275-281 | keys are the distinct attribute values in first-occurrence order; the group of key k is exactly the elements whose attribute is k, in input order |
| Dictionaries.GroupsPartition | skill-strength.user.js:275-281 | the groups concatenated in key order are a permutation of the input |
| Dictionaries.SelectNonEmpty | skill-strength.user.js:275-281 | a group is non-empty exactly when its key occurs, so no group is empty |
| Dictionaries.SelectMembers | skill-strength.user.js:275-281 | every member of group k is an input element whose attribute is k |
| Dictionaries.ElementInItsGroup | skill-strength.user.js:275-281 | every input element is in the group of its own attribute value |
| Dictionaries.GroupHeadIsFirst | skill-strength.user.js:211 | the first member of a group is the earliest input record with that key |
| Vocabulary.GetVocabProperties | skill-strength.user.js:177-203 | `None` exactly on an empty vocabulary (average throws); otherwise the mean strength, the mean and median age in seconds at time `now`, and the dead-word count |
| Records.DeadWords | skill-strength.user.js:108 | the dead words are never more than the records, and every one of them has strength 0 |
| Vocabulary.DeadWordsCount | skill-strength.user.js:198-200 | the dead-word count equals the number of strengths exactly 0.0, and the dead words are a sub-multiset of the vocabulary |
| Vocabulary.PropertiesInRange | skill-strength.user.js:177-203 | with strengths in [0,1] and ages in [0,oldest], the mean strength is in [0,1] and the mean and median ages are in [0,oldest] |
| Vocabulary.SummarizeWithin | skill-strength.user.js:209-211 | when every record of a skill has its strength in [lo, hi], the skill's entry strength (the `average` of line 210) lies in [lo, hi] |
| Vocabulary.SkillEntries | skill-strength.user.js:208-212 | one entry per distinct skill, in first-occurrence order, before sorting |
| Vocabulary.OneEntryPerSkill | skill-strength.user.js:205-212 | any rearrangement of the entries has exactly one entry per distinct skill; each entry's strength is the mean of its group's strengths and its url is the slug of the group's first record |
| Vocabulary.CalculateSkillStrength | skill-strength.user.js:205-220 | one entry per distinct skill, built by `Summarize`, carrying its group's mean and first slug; sorted weakest first; a permutation of the unsorted entries; entries of equal strength keep first-occurrence order |
| Vocabulary.SkillStrengthInRange | skill-strength.user.js:208-212 | with strengths in [0,1] every skill's strength is in [0,1] |
| Vocabulary.DeadTitlesBounded | skill-strength.user.js:108-112 | for every slug the dead-word count is at most the all-word count |
| Vocabulary.RowCounts | skill-strength.user.js:127-131 | for a skill whose slug occurs among the records, `allwordsDict[url]` is defined; the row shows the skill's name, slug and strength, the slug's dead-word count (0 when absent) and its word count, with 1 ≤ total and dead ≤ total |
| Vocabulary.RowsCounted | skill-strength.user.js:126-131 | every row of the list shows its skill's slug counts as above, in the order of the sorted skills |
| Vocabulary.DictionariesBounded | skill-strength.user.js:108-112 | for every slug, the dead-word dictionary reads at most what the word dictionary reads (both read 0 for an absent slug) |
| Vocabulary.SlugIsCounted | skill-strength.user.js:130 | each skill's slug occurs among the record slugs, so `allwordsDict[url]` is defined |
| Vocabulary.HandleVocabulary | skill-strength.user.js:98-131 | `None` exactly on an empty vocabulary; otherwise a report of the data: the properties; the skills sorted and stable as above; both count dictionaries are exactly the slug counts of the dead words and of all words, with totals equal to the zero-strength count and the vocabulary length; for every slug the dead count is at most the total count; each row shows its skill's dead count (0 when absent) and total count, with 1 ≤ total and dead ≤ total |
| Observer.Detector.constructor | skill-strength.user.js:29-30 | nothing loading and no timer pending |
| Observer.Detector.OnMutation | skill-strength.user.js:33-50 | the old timer is always cleared; a timer is pending afterwards exactly when the panel is absent; the flag is untouched |
| Observer.Detector.OnTimer | skill-strength.user.js:39-49 | a fetch starts exactly when on the home screen and not loading; afterwards the flag equals "on the home screen"; no timer is pending; on the home screen at most one request stays outstanding |
| Observer.Detector.OnCompletion | skill-strength.user.js:78-90 | a report exists exactly for a 200 response with a parsed body (`Handled`, lines 79-81) and a non-empty vocabulary, and it is the report of that vocabulary (its statistics, sorted skills, count dictionaries and rows); the flag is cleared exactly when the display step returns without throwing and `cb()` runs (line 174), including the case of line 238 where no insertion point is found and nothing is shown; otherwise it is unchanged |
| Observer.BurstThenQuiet | skill-strength.user.js:33-45 | any burst of mutations with the panel absent leaves one timer, whose firing on the home screen starts exactly one fetch and leaves nothing armed |
| Observer.PanelShownCancels | skill-strength.user.js:33-38 | a mutation while the panel is present leaves no timer pending |
| Observer.SecondArrivalWhileLoading | skill-strength.user.js:40-45 | a second home-screen evaluation while loading starts no fetch |
| Observer.LeaveAndReturn | skill-strength.user.js:40-48 | leaving the home screen clears the flag, so returning starts a second fetch while the first is unfinished |
| Observer.FailureBlocksUntilLeaving | skill-strength.user.js:78-90 | after any request that ends without `cb()` running (transport error, status other than 200, body that is not a vocabulary, empty vocabulary, or a throwing display), no fetch starts on the home screen until a timer fires away from it; afterwards one does |
| Observer.SuccessAllowsNextFetch | skill-strength.user.js:174 | after a successful load and display, the next home-screen evaluation fetches again |

## Left out

- Malformed records: the model takes well-typed records. A record with a missing or non-numeric field (NaN means, `null === 0`, an `undefined` group key) cannot be represented.
- `addGlobalStyle`, `createElement`, `displaySkillStrength` and the panel markup: DOM construction with no stateable logic. Whether the display step throws is a parameter of `OnCompletion`. On the sidebar path, line 227 calls `append` on a `NodeList`, which has no such method, so that path throws.
- `XMLHttpRequest`, `JSON.parse` and `isHomeScreen`: network, parsing and DOM queries. The model takes their outcomes as inputs: a `Completion` value, a parsed `VocabularySet`, and the `homeScreen` and `panelPresent` flags. A synchronous throw from `open`/`send` (lines 92-95) is not modelled. It would leave the flag set with no request in flight.
- `new Date()` is the parameter `now`. Timer durations, `setTimeout`/`clearTimeout` and the observer subscription are discrete events. A timer fires only while it is pending.
- IEEE floating-point rounding, `toFixed(1)` formatting and `console.debug` output. Arithmetic is exact over reals.
- Keys inherited from `Object.prototype` (such as `constructor` or `toString`). In the code they make `acc[val]`, `r[k]` and `url in deadwordsDict` see a function. Dictionaries are modelled as empty at creation.
- `Object.keys` ordering for integer-like keys. Keys are kept in first-occurrence order, which only matters for the order of ties after the stable sort.
- The `learning_language` link target (`/skill/${language}/${url}/practice`). Only the language is carried in the report.
