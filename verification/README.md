# Smart Career Advisor — a Dafny model of its deterministic core

Smart Career Advisor lets a user build a profile and a list of rated skills
in a React client, then asks a FastAPI server how well the profile fits a
set of seed roles. This project models the parts of both halves that are
plain, deterministic transformations of lists and strings, and proves
properties about them:

- **Profile page** (`skill_store.dfy`, module `SkillStore`). This covers:
  - the ordered skill store and how a tag edit reconciles it;
  - the per-skill level change and remove;
  - the form's input changes;
  - how a skill-detection reply replaces the store;
  - the submit gate.
- **Tag input** (`tag_input.dfy`, module `TagInput`): Enter and Backspace,
  comma-separated paste, and remove-by-position.
- **Results page** (`results_view.dfy`, module `ResultsView`). This covers:
  - the three-clause role filter, with JavaScript's `undefined` semantics;
  - the five role cards with three skills each;
  - donut colour cycling and the radar index-zip;
  - the donut heading taken from the first role at fetch time.

  The page declares a filter state but has no control that changes it
  (`setFilters` at frontend/src/components/Results.jsx:17 is never called),
  so the initial filters are the only ones the page reaches. The lemmas
  about other filter values describe the filter expression itself.
- **Scoring service** (`scoring.dfy`, module `Scoring`). This covers:
  - the matching/missing partition under the 70% threshold;
  - the learning-time estimate and the fit-reason tiers;
  - keyword fallback detection;
  - the radar and donut builders;
  - the division-by-zero error path for one role.
- **API server** (`server.dfy`, module `Server`). This covers:
  - the per-client sliding-window rate limiter, as a state-machine step over
    integer-second timestamps;
  - the role-fit pipeline: a last-wins skill dictionary, a stable sort by
    fit, Python `top_n` slicing, and charts from the best role;
  - the resume-upload gates.
- **Normalisers and validators** (`normalize.dfy`, `email.dfy`): the server
  and client taxonomy normalisers, and the email regular expression.
- **Records** (`models.dfy`, module `Models`): the server's pydantic field
  bounds as subset types (`Level`, `Age`, `Years`, `Weight`), with
  validators and role defaults. `Weight` and the fit values are Python
  floats, modelled as exact reals.

Shared building blocks live in `base.dfy` (`Option`), `seqs.dfy`
(subsequences, prefixes, Python/JavaScript slicing, index removal,
last-wins dictionaries), `sorting.dfy` (a stable descending insertion sort
with a stability proof) and `text.dfy` (trim, ASCII lower-casing, split and
join, substring search).

The seed data (roles, skill taxonomy) and every floating-point fit score
enter as parameters. For integer levels in 0..10, Python's
`user_level >= required_level * 0.7` is modelled as the exact integer
comparison `10 * user >= 7 * required`.

Where the code and its documentation disagree, the model follows the code:

- The level-change handler does not clamp the new level. The 0..10 bound
  comes from the slider and the pydantic model, and is carried by the
  `Level` type.
- A detection reply whose `skills` is an empty list still replaces the
  store, because an empty array is truthy in JavaScript.
- The rate limiter writes the pruned window back even when it refuses a
  request.

## Model

| member | source | states |
|---|---|---|
| Models.CheckSkill | backend/app/models.py:11-13 | A skill record exists exactly when its level is an integer in 0..10; it keeps the given name and level. |
| Models.CheckRequiredSkill | backend/app/models.py:15-18 | A required skill exists exactly when its level is in 0..10 and its weight in [0, 1]. |
| Models.CheckProfile | backend/app/models.py:4-9 | A profile exists exactly when age is in 14..100 and years of experience in 0..60; it has only name, age, years, interest areas and education (no target roles). |
| Models.SkillRoundTrip | backend/app/models.py:11-13 | Every skill record passes validation of its own name and level and comes back unchanged. |
| Models.RequiredSkillRoundTrip | backend/app/models.py:15-18 | Every required skill passes validation of its own fields and comes back unchanged. |
| Models.ProfileRoundTrip | backend/app/models.py:4-9 | Every profile passes validation of its own fields and comes back unchanged. |
| Models.ReadRole | backend/app/models.py:20-27 | Absent aliases, industry and remote flag default to [], "" and false; given values are kept, as are title, required skills, minimum experience and preferred education. |
| SkillStore.KeepNamed | frontend/src/components/Profile.jsx:267-269 | The survivors of a tag edit are exactly the records whose name is still tagged, as a subsequence of the store. |
| SkillStore.KeepNamedCounts | frontend/src/components/Profile.jsx:267-269 | Counting copies: each record whose name is still tagged survives as many times as the store holds it, and every other record survives zero times. |
| SkillStore.Fresh | frontend/src/components/Profile.jsx:266-275 | The names to add are exactly the tagged names not yet present, each once; when every tag is already present nothing is added. |
| SkillStore.AppendNewSpec | frontend/src/components/Profile.jsx:271-275 | The append loop adds, in order, one default-level record for each name not already in the accumulated list. |
| SkillStore.ReconcileShape | frontend/src/components/Profile.jsx:264-277 | A tag edit yields the survivors followed by the new default-level records. |
| SkillStore.ReconcileSurvivors | frontend/src/components/Profile.jsx:267-269 | The survivors form a prefix of the result, keep their order and levels, and are exactly the records whose name is still tagged. |
| SkillStore.AdditionsAreFresh | frontend/src/components/Profile.jsx:266-275 | Appended records have level 5 and a tagged name the store lacked; every such name is appended, once, in first-appearance order. |
| SkillStore.ReconcileNeverResets | frontend/src/components/Profile.jsx:266-273 | Any result record whose name was already in the store is one of the original records, so its level is never reset. |
| SkillStore.ReconcileSameNames | frontend/src/components/Profile.jsx:264-277 | Tags naming exactly the store's names, in any order and with repeats, leave the store unchanged. |
| SkillStore.ReconcileOwnNames | frontend/src/components/Profile.jsx:264-277 | Reconciling the store against the tag list it displays returns it unchanged. |
| SkillStore.ReconcileAppendOne | frontend/src/components/Profile.jsx:271-275 | Adding one new tag appends exactly one record for it at level 5. |
| SkillStore.ReconcileKeepsNamesUnique | frontend/src/components/Profile.jsx:264-277 | A store with distinct names keeps distinct names after any tag edit. |
| SkillStore.SetLevel | frontend/src/components/Profile.jsx:288-292 | A level change sets record i's level; names, length and every other record are unchanged. |
| SkillStore.SetLevelThenReconcile | frontend/src/components/Profile.jsx:288-292 | After a level change the displayed tag list reconciles to the changed store, so the new level survives. |
| SkillStore.RemoveSkill | frontend/src/components/Profile.jsx:293-295 | Removing position i gives length n-1; earlier records are unchanged and later ones shift down by one. |
| SkillStore.RemoveTagAgreesWithRemoveSkill | frontend/src/components/Profile.jsx:293-295 | With distinct names, removing a skill's tag chip and pressing its remove control give the same store. |
| SkillStore.SetText | frontend/src/components/Profile.jsx:28-30 | An input change sets that text field and leaves every other field unchanged. |
| SkillStore.SetList | frontend/src/components/Profile.jsx:28-30 | A list-field change sets that list and leaves every other field unchanged. |
| SkillStore.SetTextCommutes | frontend/src/components/Profile.jsx:28-30 | Changes to two different text fields give the same draft in either order. |
| SkillStore.SetTextLastWins | frontend/src/components/Profile.jsx:28-30 | Of two changes to one text field the later wins; writing back a field's own value changes nothing. |
| SkillStore.SetListCommutes | frontend/src/components/Profile.jsx:28-30 | Changes to two different list fields, or to a list field and a text field, give the same draft in either order. |
| SkillStore.SetListLastWins | frontend/src/components/Profile.jsx:28-30 | Of two changes to one list field the later wins; writing back a list's own value changes nothing. |
| SkillStore.FromDetected | frontend/src/components/Profile.jsx:50-55 | A detection reply maps one-to-one and in order onto store records: canonical name, inferred level. |
| SkillStore.DetectSkills | frontend/src/components/Profile.jsx:32-56 | No request without resume text; a reply carrying skills replaces the store; a missing list or a failure leaves it unchanged. |
| SkillStore.DetectedStoreShowsCanonicals | frontend/src/components/Profile.jsx:50-55 | After a reply with skills, the tag list shows exactly the detected canonical names in order, and reconciling against that list leaves the new store unchanged. |
| SkillStore.Submit | frontend/src/components/Profile.jsx:64-78 | Submission proceeds with the draft and store exactly when the four required fields are non-empty and a skill exists; otherwise it is blocked with the field alert first, then the skill alert. |
| SkillStore.SubmitIgnoresOptionalFields | frontend/src/components/Profile.jsx:64-78 | Changing a field the gate does not check (hours, duration, resume text, interests, target roles) never changes whether the submission proceeds or which alert blocks it. |
| SkillStore.FilledFormProceeds | frontend/src/components/Profile.jsx:64-78 | Filling name, age, experience and education with non-empty text, with a skill in the store, always lets the submission through with that draft. |
| TagInput.KeyDown | frontend/src/components/TagInput.jsx:11-19 | Enter with non-blank input appends the trimmed input and clears it; blank input emits nothing; Backspace pops the last tag exactly when the input is empty and tags exist. |
| TagInput.EnteredTagIsClean | frontend/src/components/TagInput.jsx:12-14 | A tag added by Enter is non-empty and has no surrounding whitespace. |
| TagInput.NonEmpty | frontend/src/components/TagInput.jsx:24 | Dropping empty pieces keeps exactly the non-empty ones, in their order, each as many times as it occurs, and no empty piece. |
| TagInput.PastedTags | frontend/src/components/TagInput.jsx:23-24 | The pasted tags are exactly the non-empty trimmed comma-separated pieces, in order and with their multiplicities; each is non-empty, trimmed and comma-free. |
| TagInput.Paste | frontend/src/components/TagInput.jsx:21-26 | Paste keeps the existing tags as a prefix and appends the pasted tags after them. |
| TagInput.PasteOfJoin | frontend/src/components/TagInput.jsx:24 | Pasting any comma-free pieces joined by commas yields those pieces trimmed, with the empty ones dropped. |
| TagInput.PasteJoinRoundTrip | frontend/src/components/TagInput.jsx:24 | Pasting clean tags joined by commas yields exactly those tags. |
| Seqs.Without | frontend/src/components/TagInput.jsx:28-30 | Removing position i drops exactly that element and keeps the others in order; an index outside the list changes nothing. |
| TagInput.NoEventReorders | frontend/src/components/TagInput.jsx:11-30 | No tag event reorders tags: it either extends the list or yields a subsequence of it. |
| ResultsView.KeepWhenFieldsPresent | frontend/src/components/Results.jsx:88-93 | With all fields present, a role is kept iff the industry filter is empty or matches, remote is off or the role is remote-friendly, and the minimum does not exceed the role's. |
| ResultsView.FilterRoles | frontend/src/components/Results.jsx:88-93 | The filtered list holds exactly the roles passing the filter, each as many times as the input holds it, and none that fails it; it is never longer than the input. |
| ResultsView.FilterKeepsOrder | frontend/src/components/Results.jsx:88 | The filtered list is an order-preserving subsequence of the response's roles. |
| ResultsView.InitialFiltersKeepAll | frontend/src/components/Results.jsx:17-21 | Under the initial filters every role whose minimum experience is absent or non-negative is kept, in order. |
| ResultsView.StricterFilterKeepsFewer | frontend/src/components/Results.jsx:89-91 | A stricter filter keeps no role that a looser one drops. |
| ResultsView.FromServer | backend/app/services.py:162-168 | Server results reach the page without industry, remote flag or minimum experience. |
| ResultsView.FilterOnServerRoles | frontend/src/components/Results.jsx:89-91 | On server results the filter keeps every role, unless an industry or the remote switch is chosen, which drops them all. |
| ResultsView.CardOf | frontend/src/components/Results.jsx:136-166 | A card shows the role's title, fit and reason, and the first three matching and first three missing skills. |
| ResultsView.Cards | frontend/src/components/Results.jsx:127 | At most five cards are shown, for the first five filtered roles in order. |
| ResultsView.ColoursCycle | frontend/src/components/Results.jsx:95 | Two donut cells share a colour iff their positions agree modulo six. |
| ResultsView.DonutColours | frontend/src/components/Results.jsx:210-211 | Donut cell i is filled with palette entry i mod 6, one colour per entry. |
| ResultsView.At | frontend/src/components/Results.jsx:243-244 | Reading past an array's end yields undefined; inside it yields the element. |
| ResultsView.RadarRows | frontend/src/components/Results.jsx:241-245 | There is one radar row per skill name, pairing it with the level arrays at the same index. |
| ResultsView.AlignedRowsComplete | frontend/src/components/Results.jsx:241-245 | When the three arrays have equal length, row i is (skills[i], user_levels[i], required_levels[i]). |
| ResultsView.ServerRadarRows | backend/app/services.py:224-227 | The server's radar arrays are aligned, so every row is complete, with the user level (0 if unknown) and the required level. |
| ResultsView.Load | frontend/src/components/Results.jsx:42-43 | After a fetch the selected role is the first role of the unfiltered response, or none when it is empty. |
| ResultsView.DonutHeading | frontend/src/components/Results.jsx:192 | The heading names the selected role, falling back to "Top Role" when none is selected or its title is empty. |
| ResultsView.WithFilters | frontend/src/components/Results.jsx:17-21 | Replacing the filter state changes only the filters: roles, donut, radar and selected role stay as they were. |
| ResultsView.HeadingIgnoresFilters | frontend/src/components/Results.jsx:43 | Whatever the filter state holds, the heading names the response's first role. |
| ResultsView.LoadedCards | frontend/src/components/Results.jsx:127 | As loaded, the cards show the response's roles in server order, at most five. |
| Scoring.EstimateWeeks | backend/app/services.py:179-182 | The learning estimate is even and at least 2; it is 2 when current >= required - 1, otherwise twice the gap. |
| Scoring.WeeksMonotone | backend/app/services.py:181-182 | Estimates never decrease with the required level and never increase with the current level. |
| Scoring.Partition | backend/app/services.py:103-130 | Every required skill lands in exactly one list: matching iff 10·user >= 7·required (unknown skills at level 0); each missing entry carries its estimate. |
| Scoring.PartitionKeepsOrder | backend/app/services.py:103-130 | Both lists keep the order of the role's required skills. |
| Scoring.TierOf | backend/app/services.py:188-195 | Exactly one tier applies: at least 80, at least 60, at least 40, or below. |
| Scoring.TierMonotone | backend/app/services.py:188-195 | A higher fit never gets a lower tier. |
| Scoring.ReasonDecidesTierAndTitle | backend/app/services.py:184-195 | Two equal reasons come from the same tier and the same role title. |
| Scoring.DifferentTiersDifferentReasons | backend/app/services.py:188-195 | Fits in different tiers never give the same reason, whatever the titles. |
| Scoring.ReasonNamesRole | backend/app/services.py:189-195 | Every reason contains the role title, right after the tier's opening words. |
| Scoring.FirstOccurring | backend/app/services.py:76-85 | The chosen variant is the first one whose lower-case form occurs in the lower-cased text; none is chosen only if none occurs. |
| Scoring.EntryYield | backend/app/services.py:76-85 | A taxonomy entry yields a detection exactly when one of its variants occurs; the detection has that entry's canonical, a variant found in the text, level 5 and confidence 0.7. |
| Scoring.Detect | backend/app/services.py:75-85 | Detected skills are exactly the yields of the taxonomy's entries, at most one per entry. |
| Scoring.DetectFollowsTaxonomy | backend/app/services.py:75-85 | Detections follow taxonomy order, so with distinct canonicals each canonical is detected at most once. |
| Scoring.FallbackDetection | backend/app/services.py:69-91 | Every detected variant is a key of the normalisation map, and every key is a detected variant; with distinct variants the map sends each to its canonical; no skills are suggested. |
| Scoring.RadarPicks | backend/app/services.py:219-222 | The radar shows min(8, matching + missing) skills, a sub-multiset of matching-then-missing, in non-increasing weight; no copy left out weighs more than a skill shown. |
| Scoring.RadarTiesKeepOrder | backend/app/services.py:220-222 | Skills of equal weight keep their matching-then-missing order. |
| Scoring.BuildRadar | backend/app/services.py:211-229 | The three radar arrays are index-aligned over the picks, with the user's level (0 if unknown) and the required level. |
| Scoring.BuildDonut | backend/app/services.py:197-209 | There is one donut slice per matching skill, in order, weighted by 100·weight. |
| Scoring.DonutShowsOnlyMatching | backend/app/services.py:201-207 | Every slice of a role's donut meets the matching threshold, so no missing skill appears. |
| Scoring.PartitionAccountsForEverySkill | backend/app/services.py:103-130 | Matching and missing together name each required skill exactly as often as the role does (equal multisets of names). |
| Scoring.ReasonIsNeverError | backend/app/services.py:170-195 | No tier sentence equals the error reason, whatever the title and fit. |
| Scoring.ScoreRoleErrorIff | backend/app/services.py:139-178 | The reason is "Error calculating fit: division by zero" exactly for a role whose minimum experience is -1. |
| Scoring.ScoreRoleAccountsForSkills | backend/app/services.py:103-178 | A role that can be scored lists each required skill, as matching or missing, exactly once per requirement. |
| Server.Recent | backend/app/main.py:28-31 | Pruning keeps exactly the timestamps less than 60 s old, in order and each as many times as recorded, and drops every older one; it keeps all of them when all are recent. |
| Server.Step | backend/app/main.py:21-43 | Other paths pass untouched. On the two limited paths a request is refused with 429 iff the pruned window holds at least 10 entries, and passes iff it holds fewer; a refused request gets the 429 "Rate limit exceeded" body and stores the pruned window, an accepted one appends its time; other clients are unchanged. |
| Server.StepKeepsWithinLimit | backend/app/main.py:34-41 | No client ever has more than 10 timestamps on record. |
| Server.BurstCounts | backend/app/main.py:28-41 | In a burst within one window, accepted requests plus timestamps already on record never exceed 10. |
| Server.AtMostTenPerWindow | backend/app/main.py:16-43 | A client with a clean record gets at most 10 requests through in any 60-second burst. |
| Server.BurstAllPass | backend/app/main.py:28-41 | In a burst within one window, while the timestamps on record plus the requests to come number at most 10, every request passes. |
| Server.UpToTenPerWindowPass | backend/app/main.py:16-43 | A client with a clean record that sends at most 10 requests within 60 seconds gets all of them through. |
| Server.UserSkills | backend/app/main.py:105 | The skill dictionary has exactly the request's names; each maps to the level of its last occurrence. |
| Server.ScoreAll | backend/app/main.py:109-116 | Every seed role is scored, in seed order, through the safe scorer. |
| Server.Ranked | backend/app/main.py:119-120 | The top list has exactly as many entries as Python's `[:top_n]` keeps, negative `top_n` included; it is a sub-multiset of the scored results, sorted by fit descending, and no result left out (counting copies) has a higher fit than one kept. |
| Server.RoleFit | backend/app/main.py:101-130 | The response holds as many roles as `[:top_n]` keeps of the seed roles, ranked; donut and radar come from the first role, or are empty when there is none. |
| Server.RoleFitTiesKeepSeedOrder | backend/app/main.py:119 | Roles with equal fit keep seed order in the response. |
| Server.CheckUpload | backend/app/main.py:72-80 | An upload passes iff it is application/pdf and at most 10·1024·1024 bytes; the content-type error comes first. |
| Server.SmallerUploadPasses | backend/app/main.py:77-80 | A file that passes still passes at any smaller size. |
| Server.UploadGatesCombine | backend/app/main.py:72-80 | An upload passes iff it passes the type gate and a PDF of its size passes the size gate. |
| Sorting.SortDesc | backend/app/main.py:119 | Sorting by a key descending is a permutation and is sorted. |
| Sorting.Top | backend/app/main.py:119-120 | The first n of a descending sort: min(n, len) elements forming a sub-multiset of the input, in non-increasing key order; every copy left out has a key no larger than each element kept. |
| Sorting.SortIsStable | backend/app/services.py:221 | Elements with equal keys keep their relative order after sorting. |
| Seqs.SliceLength | backend/app/main.py:120 | Python's [:n] on a list of length len keeps min(n, len) elements for n >= 0 and drops the last min(-n, len) for n < 0; never more than len. |
| Seqs.LastWins | backend/app/main.py:105 | A dictionary built from pairs has exactly their keys, each mapped to its last value. |
| Text.TrimEmptyIffBlank | frontend/src/components/TagInput.jsx:12 | Trimming yields "" exactly for whitespace-only input. |
| Text.SplitJoin | frontend/src/components/TagInput.jsx:24 | Splitting a comma-joined list of comma-free pieces returns the pieces. |
| Text.ContainsIff | backend/app/services.py:77 | Python's substring test holds iff the needle occurs at some position. |
| Normalize.FirstClaim | backend/app/utils.py:28-33 | The chosen entry is the first in taxonomy order that claims the key. |
| Normalize.Canonical | backend/app/utils.py:24-36 | A skill becomes the canonical of the first claiming entry, or stays exactly as given when none claims it. |
| Normalize.ServerNormalize | backend/app/utils.py:20-38 | The server's result is the set of normalised names: each a canonical or an input, with no more names than inputs. |
| Normalize.ClientNormalize | frontend/src/utils/helpers.js:1-13 | The client's result has the same length, position by position. |
| Normalize.KeyIgnoresCaseAndPadding | backend/app/utils.py:25 | Case and surrounding whitespace on a skill do not change its lookup key. |
| Normalize.SameKeySameCanonical | backend/app/utils.py:25-33 | Two skills with the same key normalise to the same canonical whenever some entry claims that key. |
| Normalize.SidesAgreeOnLowerVariants | frontend/src/utils/helpers.js:3-6 | With all variants lower-case, client and server normalise every skill alike. |
| Normalize.KeyIsLower | frontend/src/utils/helpers.js:3 | A lookup key never holds an upper-case letter. |
| Normalize.ClientNeverMatchesUpperCaseVariant | frontend/src/utils/helpers.js:3-6 | For every skill and every variant with an upper-case letter, the client's comparison fails, while the server claims the entry whenever the key is the variant lower-cased. |
| Normalize.ClientMissesUpperCaseVariant | frontend/src/utils/helpers.js:6 | Witness: with `{"JavaScript": ["JS"]}` and skill "JS", the server returns "JavaScript" and the client returns "JS". |
| Normalize.FixedClientAgreesWithServer | frontend/src/utils/helpers.js:3-9 | The client lookup with variants lower-cased agrees with the server on every skill. |
| Email.ValidateMatchesPattern | frontend/src/utils/helpers.js:15-18 | The validator accepts exactly: a non-empty local part, one @, no whitespace, and a domain with a '.' that is neither first nor last. |
| Email.RejectsSpaceAndSecondAt | frontend/src/utils/helpers.js:16 | Any whitespace or a second @ makes an address invalid. |

## Left out

- The weighted fit formula is left out because it is floating-point arithmetic. This covers the skill ratios, the weight totals, the experience and education scores, `round(..., 2)` and the +8 keyword boost (backend/app/services.py:98-157). `Scoring.ScoreRole` and `Server.RoleFit` take each role's fit as a parameter. The boost could never fire anyway, because the request's `Profile` has no `target_roles` field (backend/app/models.py:4-9).
- The OpenAI call in `detect_skills_with_llm` and the `/api/detect-skills` endpoint are left out because they call an external service; only the keyword fallback is modelled.
- PDF text extraction (`parse_pdf`) and the 500 error it can raise are left out because they are external libraries.
- HTTP plumbing is left out: `useApi.js`, CORS, JSON handling, the 500 wrappers around each endpoint, and loading the seed files. The seed roles and the taxonomy are parameters.
- The results page's loading, error and no-results branches and its navigation are left out because they are UI flow (frontend/src/components/Results.jsx:24-85).
- `debounce`, `formatPercentage` and the chart label percentage are left out because they involve timers and floating-point display.
- `Landing.jsx`, `App.jsx`, `ResumeUpload.jsx`, `SkillSlider.jsx` and `useForm.js` are UI or wrappers. The slider only supplies the 0..10 bound, carried by `Level`.
- Races between overlapping requests and the loading flags are left out because they are concurrency.
- Server.Step: timestamps are whole seconds, whereas the source compares `datetime` values at microsecond resolution.
- Server.Step: concurrent requests sharing the limiter's dictionary are not modelled.
- Text.Lower: lower-casing is ASCII only. Python `lower`, JavaScript `toLowerCase` and Unicode case mapping are not modelled beyond ASCII.
- Text.IsSpace: whitespace is the six ASCII characters space, tab, LF, CR, VT and FF. Python `strip`, JavaScript `trim` and the regex class `\s` also accept further characters, such as U+00A0 and, for Python, U+001C..U+001F.
- Normalize.ServerNormalize: the result is a set, because `list(set(...))` has no specified order.
- Scoring.FallbackDetection: the map value is stated only when the detected variants are distinct. When two taxonomy entries detect the same variant string, the later entry's canonical wins and this is not stated.
- SkillStore.DetectSkills: the detected levels are taken to lie in 0..10 (the `Level` type). The client copies `inferred_level` into the store unchecked (frontend/src/components/Profile.jsx:51-54), and the server does not validate it either; an out-of-range level from the model service is not represented.
- Normalize.ClientNormalize: taxonomy entries are visited in sequence order. JavaScript's `Object.entries` lists integer-like keys first in ascending order, while a Python dict keeps insertion order; `SidesAgreeOnLowerVariants` assumes both sides see the same order, so it does not cover a taxonomy with integer-like canonical names.
- Server.RoleFit: `top_n` is a parameter; its request default of 5 (backend/app/schemas.py:13) belongs to request parsing, which is not modelled.
- Scoring.BuildDonut: a slice's value is the exact real `weight * 100.0`; the source multiplies Python floats (backend/app/services.py:204), whose rounding (0.07 * 100 gives 7.000000000000001) is not modelled, because `Weight` stands for a float as an exact real.
- Models.ReadRole: only absent optional fields are modelled; an explicit JSON `null` (pydantic then stores `None`) is not.

## Findings

| source | as written | input that shows it | evidently intended | confidence | as-written member | corrected member |
|---|---|---|---|---|---|---|
| frontend/src/utils/helpers.js:6 | The skill is lower-cased and trimmed, but `variants.includes` compares it with variants as written, so a variant with an upper-case letter can never match. | taxonomy `{"JavaScript": ["JS"]}`, skill `"JS"`: the client returns `"JS"`, the server returns `"JavaScript"` | compare with lower-cased variants, as the server does (backend/app/utils.py:30) | high, not executed | Normalize.ClientNeverMatchesUpperCaseVariant | Normalize.FixedClientAgreesWithServer |
