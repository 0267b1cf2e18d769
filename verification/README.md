# 360 assessment scoring and submission rules, in Dafny

This project models the rules behind `assessmentAPP360.py`, a Streamlit app for
360-degree competency assessments:

- **Catalog.** The five competencies, the five-label rating scale, the table of
  descriptive texts, and `get_tier`, which classifies a percentage into a tier.
- **Aggregator.** `aggregate_scores` pools every stored row about one person
  (self, peer and line-manager rows alike). It reports a competency only when
  exactly three scores exist, as `round(total / 15 * 100, 2)` plus its tier.
- **Submission gates.** The self, peer and line-manager forms each check the
  stored rows and then either reject the submission or append exactly one row.
  Self: one self row per person. Peer and manager: the rater's name must not
  already occur in the timestamp of a row about the same person in the same
  role. The accepted row's timestamp is `"<now>_<rater>"`.
- **Candidate list.** The distinct people with a self row, in order of first
  appearance. It feeds the peer and line-manager pickers and the report picker.
- **Admin accounts.** Creating an account needs an unused username. Login
  succeeds when one line of the accounts file holds the username and the hash of
  the password.

Modules, one per file:

- `Wrappers` (`wrappers.dfy`): `Option` and `Result`.
- `Catalog` (`catalog.dfy`): tiers, labels, ranks, the rating scale, the
  definitions table, `GetTier`.
- `Records` (`records.dfy`): the assessments file as a sequence of `Row`s, and
  selecting and counting rows.
- `Aggregator` (`aggregator.dfy`): `AggregateScores`.
- `Submission` (`submission.dfy`): the three gates and the properties relating
  them to each other and to the report.
- `Candidates` (`candidates.dfy`): the candidate list.
- `Accounts` (`accounts.dfy`): account creation and login.

Percentages are integers counting hundredths of a percent.
`round(total / 15 * 100, 2)` becomes `(2000 * total + 1) / 3`, and the tier
thresholds 40, 55, 70 and 85 become 4000, 5500, 7000 and 8500. `2000 * total`
is never 3k + 3/2, so rounding to the nearest hundredth never meets a tie. For
that reason Python's `round` (round half to even) and this integer formula agree
(`NoRoundingTie`).

Two consequences of the code are worth stating up front:

- A competency without exactly three scores is left out of the result. There is
  no placeholder value for it.
- Three ratings of 1 give 20.00 percent (3 / 15), the lowest percentage a report
  can show (`PercentInRange`).

## Model

| member | source | states |
|---|---|---|
| Catalog.Competencies | assessmentAPP360.py:177-181 | the five competencies in form order; `DefinitionsCoverCatalog` and `ScoreSheet` state how the rest of the catalog and every form follow this list |
| Catalog.Ratings | assessmentAPP360.py:183-190 | the rating scale; its contract is `RatingsBijection` |
| Catalog.Definitions | assessmentAPP360.py:192-229 | the descriptive-text table; its contract is `DefinitionsCoverCatalog` |
| Catalog.DefinitionText | assessmentAPP360.py:450-456 | the report's two-level lookup with its empty fallback; its contract is `DefinitionFound` |
| Catalog.RatingsBijection | assessmentAPP360.py:183-190 | the rating scale's keys are exactly the five tier labels; each label maps to its tier's rank; the values are exactly 1..5, and no two labels share a value |
| Catalog.TierNamesDistinct | assessmentAPP360.py:183-190 | distinct tiers have distinct labels and distinct ranks |
| Catalog.DefinitionsCoverCatalog | assessmentAPP360.py:177-229 | the definitions table has exactly the competencies as keys, and each competency's entry has exactly the five tier labels as keys |
| Catalog.DefinitionFound | assessmentAPP360.py:192-229 | for any competency of the catalog and any tier, the report's lookup `definitions.get(comp, {}).get(tier, "")` finds that competency's text for that tier, never the empty fallback |
| Catalog.GetTier | assessmentAPP360.py:240-250 | the tier's rank is one more than the number of thresholds (40, 55, 70, 85 percent) the percentage has reached, so each lower bound is inclusive |
| Catalog.TierBands | assessmentAPP360.py:240-250 | the five tiers partition all percentages: below 40 Poorly, [40, 55) Minimally, [55, 70) Effectively, [70, 85) Highly, 85 and above Mastery; each in both directions |
| Catalog.ReachedMonotone | assessmentAPP360.py:240-250 | a higher percentage has reached at least as many thresholds |
| Catalog.GetTierMonotone | assessmentAPP360.py:240-250 | a higher percentage never gets a lower-ranked tier |
| Records.ScoreSheet | assessmentAPP360.py:364-366 | the score sheet of a form has exactly the competencies as keys, each scored with the rank of the label picked for it, so every score lies in 1..5 |
| Records.Header | assessmentAPP360.py:358 | the header of a newly created assessments file holds `user_id` and every competency |
| Records.CreatedFile | assessmentAPP360.py:356-358 | the assessments file as created when missing; `Aggregator.CreatedFileReports` states what its header guarantees |
| Records.Select | assessmentAPP360.py:255 | `df[df['user_id'] == user]`; its contract is `SelectMembers` with `SelectCounts` and `SelectAppend` |
| Records.Column | assessmentAPP360.py:259 | `subset[comp].tolist()`: one entry per selected row, holding that row's score for the competency |
| Records.HasRow | assessmentAPP360.py:370 | the self gate's test; `HasRowCounted` relates it to the role counts |
| Records.CountRole | assessmentAPP360.py:398 | how many rows carry a person and role, the `.shape[0]` of the peer count; `SelectPoolsRoles`, `HasRowCounted` and `CountAppend` state its contract |
| Records.RoleNamesDistinct | assessmentAPP360.py:370 | the roles are stored as three different strings ("self", "peer", "manager", as written at lines 373, 394 and 429), so the string tests on the `role` column at lines 370, 390 and 425 compare roles |
| Records.SelectMembers | assessmentAPP360.py:255 | the rows selected for a person are exactly the stored rows whose user_id is that person, whatever their role |
| Records.SelectCounts | assessmentAPP360.py:255 | selection keeps each row about the person exactly as many times as the store holds it, and drops every other row, so together with `SelectMembers` and `SelectPoolsRoles` it fixes the selection up to order |
| Records.SelectKeeps | assessmentAPP360.py:255 | selecting from a store whose rows all carry every competency, or all hold valid scores, gives rows with the same property |
| Records.SelectAppend | assessmentAPP360.py:255 | appending a row adds it to a person's selection exactly when the row is about that person |
| Records.SelectGrows | assessmentAPP360.py:255 | appending rows never removes a selected row: the selection before is a prefix of the selection after, so it never shrinks |
| Records.SelectPoolsRoles | assessmentAPP360.py:255 | the number of a person's selected rows is their self, peer and manager rows added together |
| Records.HasRowCounted | assessmentAPP360.py:370 | some row holds a person and role exactly when the count of such rows is positive |
| Aggregator.Sum | assessmentAPP360.py:261 | the total of the scores; `SumOfThreeScores` bounds it for three ratings |
| Aggregator.CreatedFileReports | assessmentAPP360.py:253-260 | in a file the application created, the missing-`user_id` branch never applies: a competency is reported exactly when the person has three rows |
| Aggregator.Scores | assessmentAPP360.py:255-259 | the scores one person received for one competency, one per selected row; `AggregateScores`, `AllOrNothing` and `ReportOfThreeRows` state what they are |
| Aggregator.RoundedPercent | assessmentAPP360.py:262 | the integer formula is round(total / 15 * 100, 2) in hundredths: within half a hundredth of 2000 * total / 3 |
| Aggregator.NoRoundingTie | assessmentAPP360.py:262 | at most one value is the nearest hundredth, so the choice of tie-breaking rule does not matter |
| Aggregator.Grade | assessmentAPP360.py:261-265 | a total's report entry holds the rounded percentage and that percentage's tier |
| Aggregator.AggregateScores | assessmentAPP360.py:252-266 | the result is empty without a user_id column; a competency is reported exactly when the person has three scores for it; each entry holds the rounded percentage of the sum and get_tier of it |
| Aggregator.AllOrNothing | assessmentAPP360.py:255-260 | when every row carries every competency, a competency is reported exactly when the person has three rows in all |
| Aggregator.RolesPooled | assessmentAPP360.py:255-260 | a competency is reported exactly when the person's self, peer and manager rows add up to three, whatever the mix of roles |
| Aggregator.OverfullStaysEmpty | assessmentAPP360.py:255-260 | once a person has four or more rows, the report stays empty whatever is appended later |
| Aggregator.SumOfThreeScores | assessmentAPP360.py:260-261 | three scores of the rating scale total between 3 and 15 |
| Aggregator.PercentInRange | assessmentAPP360.py:261-262 | with valid stored scores, every reported percentage lies between 20.00 and 100.00 |
| Aggregator.TierOfTotal | assessmentAPP360.py:261-264 | the tier depends on the total alone: up to 5 Poorly, 6 to 8 Minimally, 9 and 10 Effectively, 11 and 12 Highly, 13 and up Mastery |
| Aggregator.ReportTextFound | assessmentAPP360.py:444-456 | every tier in a report has its descriptive text in the definitions table |
| Submission.RaterStamp | assessmentAPP360.py:394 | the timestamp of a peer or manager row, `f"{now}_{rater}"`; `StampNamesRater` states it names the rater |
| Submission.RatedBy | assessmentAPP360.py:390 | the peer and manager duplicate test; `RepeatRaterRejected`, `SubstringRaterRejected` and `AppendOtherRoleKeepsGateOpen` state how it behaves |
| Submission.PeerReviewsComplete | assessmentAPP360.py:398-399 | the peer form's completion test; `PeerCompletionMeansNoReport` states what it implies for the report |
| Submission.Contains | assessmentAPP360.py:390 | the timestamp test `str.contains(user_name)`, read as a literal substring; `StampNamesRater` and `ContainsTransitive` state its contract |
| Submission.SubmitSelf | assessmentAPP360.py:368-374 | the self form is rejected exactly when the person already has a self row; otherwise the store gains exactly one self row holding the person, the time and the form's scores |
| Submission.SubmitRated | assessmentAPP360.py:388-395 | the peer and manager gate is rejected exactly when a row about the ratee in that role has the rater's name inside its timestamp; otherwise exactly one row is appended, stamped "<now>_<rater>" |
| Submission.SubmitPeer | assessmentAPP360.py:388-395 | the peer form is rejected exactly when the rater's name occurs in a peer row's timestamp for the ratee; otherwise earlier rows are kept, the one row appended holds the ratee, the stamp "<now>_<rater>", the role and the form's scores, and the ratee's peer count goes up by one |
| Submission.SubmitManager | assessmentAPP360.py:423-430 | the line-manager form is rejected exactly when the rater's name occurs in a manager row's timestamp for the ratee; otherwise earlier rows are kept, the one row appended holds the ratee, the stamp "<now>_<rater>", the role and the form's scores, and the ratee's manager count goes up by one |
| Submission.CountAppend | assessmentAPP360.py:398 | appending a row raises a person's count for a role by one exactly when the row is about that person in that role |
| Submission.SelfSubmitTwice | assessmentAPP360.py:370-371 | a second self submission for the same person is always rejected |
| Submission.SubmissionsKeepOneSelfRow | assessmentAPP360.py:370-374 | every accepted submission keeps each person at no more than one self row |
| Submission.SubmissionsKeepStoreValid | assessmentAPP360.py:373-374 | every accepted submission keeps all stored scores in 1..5 |
| Submission.StampNamesRater | assessmentAPP360.py:394 | a timestamp written for a rater contains the rater's name |
| Submission.ContainsTransitive | assessmentAPP360.py:390 | a substring of a substring of a text is a substring of that text |
| Submission.LaterRaterInStampRejected | assessmentAPP360.py:390-394 | after a rater is accepted, any rater whose name occurs in that row's timestamp is rejected for the same ratee and role |
| Submission.RepeatRaterRejected | assessmentAPP360.py:390-394 | the same rater rating the same person in the same role again is rejected |
| Submission.SubstringRaterRejected | assessmentAPP360.py:390-394 | a rater whose name is part of an earlier rater's name is rejected, although they never rated this person |
| Submission.PeerDoesNotBlockManager | assessmentAPP360.py:425-429 | duplicates are judged per role: a rater's peer row does not stop them from rating the same person as line manager |
| Submission.PeerCompletionMeansNoReport | assessmentAPP360.py:397-400 | when the peer form announces three peer reviews for a person with a self row, that person has four or more rows and their report is empty |
| Submission.NoRowsNoDuplicates | assessmentAPP360.py:370 | with no rows about a person, none of their gates is closed |
| Submission.AppendOtherRoleKeepsGateOpen | assessmentAPP360.py:425 | appending a row of another role does not change whether a rater counts as having rated someone in this role |
| Submission.ReportOfThreeRows | assessmentAPP360.py:252-266 | a report over exactly three rows covers every competency and grades each by the total of those rows' scores |
| Submission.RoundRows | assessmentAPP360.py:368-430 | starting with no rows about a person, their self, peer and manager submissions are all accepted and append those three rows in order |
| Submission.SelectThreeAppended | assessmentAPP360.py:255 | three rows about a person appended to a store holding none are exactly what selecting that person finds |
| Submission.SelectAllAbout | assessmentAPP360.py:255 | rows about a person appended to a store holding none about them are exactly what selecting that person finds, in order |
| Submission.CompleteAppendThree | assessmentAPP360.py:373-374 | appending rows that carry every competency keeps a store complete |
| Submission.ReportOfRound | assessmentAPP360.py:252-266 | the report after one round covers every competency, graded by the sum of the three ratings given for it |
| Submission.RoundGivesReport | assessmentAPP360.py:368-430 | one round of self, peer and manager submissions about a new person is accepted, and the report then grades every competency by the sum of the three ratings given |
| Candidates.CandidateList | assessmentAPP360.py:442 | the distinct people with a self row; its contract is `CandidateListSpec` |
| Candidates.SelfIds | assessmentAPP360.py:442 | `df[df['role'] == 'self']['user_id']`: the ids of the self rows in file order; `SelfIdsMembers` states its contract |
| Candidates.Unique | assessmentAPP360.py:442 | pandas `.unique()`; `UniqueMembers`, `UniqueDistinct` and `UniqueFirstOccurrenceOrder` state its contract |
| Candidates.FirstIndex | assessmentAPP360.py:442 | the position returned holds the value, and no earlier position does |
| Candidates.FirstIndexAppend | assessmentAPP360.py:442 | appending to a sequence does not move a value's first position |
| Candidates.UniqueMembers | assessmentAPP360.py:442 | removing repeats keeps every value and invents none |
| Candidates.UniqueDistinct | assessmentAPP360.py:442 | after removing repeats, no value appears twice |
| Candidates.UniqueFirstOccurrenceOrder | assessmentAPP360.py:442 | after removing repeats, values keep the order of their first occurrence |
| Candidates.SelfIdsMembers | assessmentAPP360.py:442 | a name is among the self rows' ids exactly when that person has a self row |
| Candidates.CandidateListSpec | assessmentAPP360.py:321 | the candidate list names each person with a self row exactly once, in the order of their first self row, and nobody else |
| Candidates.SelfSubmissionAddsCandidate | assessmentAPP360.py:414 | an accepted self assessment adds its author at the end of the candidate list |
| Accounts.Stored | assessmentAPP360.py:297-300 | the accounts read from the file, with the empty frame for a missing file; `CreateAccount` and `CreateKeepsOtherLogins` state how a missing file is treated |
| Accounts.Taken | assessmentAPP360.py:301 | `new_username in df_acc['username'].values`; `CreateAccount`, `CreateTwiceRejected` and `LoginNeedsAccount` state its contract |
| Accounts.CreateAccount | assessmentAPP360.py:294-307 | creation is refused exactly when the username is already on file; otherwise the file keeps its lines and gains one holding the username and the hash of the password |
| Accounts.Login | assessmentAPP360.py:328-341 | without an accounts file nobody can log in; otherwise login succeeds exactly when one line holds both the username and the hash of the password |
| Accounts.CreateThenLogin | assessmentAPP360.py:294-341 | after a successful create, login with the same username and password succeeds |
| Accounts.NewAccountPassword | assessmentAPP360.py:294-341 | after a successful create, a password logs in as the new user exactly when it hashes like the one it was created with |
| Accounts.CreateKeepsOtherLogins | assessmentAPP360.py:294-341 | creating an account leaves every other username's login outcome as it was, except that an absent file becomes present |
| Accounts.CreateKeepsLogins | assessmentAPP360.py:294-341 | every login that worked before an account is created still works after |
| Accounts.CreateTwiceRejected | assessmentAPP360.py:300-301 | a username that was created cannot be created again |
| Accounts.CreateKeepsUsernamesUnique | assessmentAPP360.py:300-304 | accounts made only through creation never share a username |
| Accounts.LoginNeedsAccount | assessmentAPP360.py:332-333 | a login succeeds only for a username on file |

## Left out

- Streamlit rendering, banner, logo, CSS and `st.session_state` page navigation
  (lines 13–174, 286–349) are UI flow. The model has the rules the buttons
  trigger, not the screens.
- CSV I/O (`pd.read_csv`, `to_csv`, `os.path.exists`). The assessments file is
  an in-memory sequence of rows. The accounts file is `Option<seq<Account>>`,
  with `None` for a missing file.
- `datetime.now()` is a string parameter `now`.
- SHA-256 (`hash_password`) is a function parameter `hash`. No cryptographic
  property is assumed.
- Email confirmation over SMTP, the charts and the report CSV download are
  foreign I/O.
- Floating point. Percentages are exact integer hundredths, which is exact for
  the totals that occur.
- Concurrent check-then-append races between browser sessions. Each gate is one
  atomic function of the store.
- No placeholder result for a competency without three scores, and no rule on
  the mix of roles or the number of raters. The code has none of these.
- The pandas `KeyError` for a missing competency column. The aggregator requires
  every row to carry every competency, which the file header and every appended
  row guarantee.
- Aggregator.AggregateScores: the frame's column set is not tied to its rows.
  A frame whose columns lack a competency while its rows carry it is reported
  as if the column were present, where line 259 would raise `KeyError`. Files
  the application creates (`CreatedFile`) have every competency column.
- Submission.Contains: pandas `str.contains` treats the rater's name as a
  regular expression. The model treats it as a literal substring. The two agree
  for names without regex metacharacters, and the properties about raters hold
  only for such names. A name such as "a+b" or "Smith (Jr.)" does not match its
  own stamp, so the application does not reject that rater's repeat
  (`RepeatRaterRejected` fails for them). "J. Smith" is rejected once "Jo Smith"
  has rated, although the model accepts. A name with an unbalanced "(" makes
  the check raise an error.
- Submission.SubmitSelf: pandas reads some stored values back as something other
  than the text written. A user id such as "NA", "null" or "NaN" becomes a
  missing value, which equals nothing: for such a person the self gate at line
  370 never closes, and selection at line 255 finds none of their rows. When
  every id in the `user_id` column is number-like, pandas reads the column as
  numbers, so a name typed as "123" never matches at line 370 either; a column
  that also holds other names keeps "123" as text, and the gate behaves as
  modelled. The model compares ids as written.
- Accounts.CreateAccount: by the same read-back, a username such as "NA" or the
  empty name is never found at line 301, so it can be created again; so is a
  number-like username when every username in the file is number-like.
- Accounts.Login: by the same read-back, an admin named like that never logs in
  at line 333.
- An accounts file that exists but is empty makes `pd.read_csv` raise an error
  at lines 298 and 331. The application never writes such a file: the first
  account is written together with the header. The model has no such state.
- `get_general_definitions` (lines 231–238) is display text only and is not
  used by any rule.
- Catalog.Definitions: the wording of the 25 descriptive texts is not modelled.
  Each text is the value `Description(competency, tier)`, so the model proves
  which entry the report finds but not what it says.
- Records.Role: the `role` column is one of the three values the forms write,
  not an arbitrary string.
- The report's display formatting (`f"{percent}%"`) and the order of the
  report's entries are not modelled. The report is a map from competency to
  entry.
