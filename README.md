# Voting management system: a verified model of the election store

This project models the core of a small Java voting application:

- the `VotingManagementSystem` store, which keeps voters and candidates in two hash maps keyed by id;
- its three guarded operations, `registerVoter`, `registerCandidate` and `castVote`;
- the flat-file format it saves after every successful change and reads back when it starts;
- the `Voter` and `Candidate` entities;
- the scan in `displayResults` that picks the winner and renders the results text.

Files `voters.txt` and `candidates.txt` are modelled as sequences of lines held
in two fields of the store. An absent file is the empty sequence.

Modules, one file each:

- `Decimal` (`decimal.dfy`): Java's decimal rendering of an `int` and `Integer.parseInt`, with their round trip.
- `VoterModel`, `CandidateModel` (`voter.dfy`, `candidate.dfy`): the two entities as classes whose mutable field is updated in place. `Snapshot()` gives each one's value as a record.
- `Iteration` (`iteration.dfy`): a hash map's iteration order as an arbitrary enumeration of its keys.
- `Persistence` (`persistence.dfy`): `String.split(",")`, `Boolean.parseBoolean`, the line formats, and loading whole files. This includes the save/load round trip.
- `ElectionSpec` (`election.dfy`): the three operations as functions on the store's value. Also the invariants they keep.
  - Every record is stored under its own id.
  - Counts are never negative.
  - The total vote count minus the number of voters marked as voted never changes. So starting from empty files, the votes always add up to the voters who have voted.
  - Nothing is ever undone.
- `ElectionStore` (`store.dfy`): the store as a class over maps of `Voter`/`Candidate` objects. Each public method is proved to produce exactly the state the matching `ElectionSpec` function gives. On success, every file the method writes holds the saved form of the new state. On failure, both files are left as they were. A registration never touches the other collection's file.
- `Results` (`results.dfy`): the results report and the winner scan.

What is proved about the winner scan: when no count is negative, the label is `"Tie"` exactly when the largest count is reached by two candidates. Otherwise it is the name of the one candidate that reaches it. From this, `Results.VerdictOrderIndependent` proves that any two orders of the same candidates give the same verdict. Only the order of the listed lines depends on the hash map's iteration order.

Two consequences of the code are stated as lemmas:

- An id or name containing a comma is accepted at registration, but its saved line has too many fields. Reloading skips that line, so the record is lost. This holds for voters (`Persistence.CommaInVoterIsLost`) and for candidates (`Persistence.CommaInCandidateIsLost`).
- A stored negative count reloads as zero (`Persistence.NegativeCountLoadsAsZero`).

## Model

| member | source | states |
|---|---|---|
| VoterModel.Voter.constructor | src/Voter.java:8-13 | a new voter holds the given id, name and age and has not voted |
| VoterModel.Voter.SetHasVoted | src/Voter.java:33-35 | sets the voted flag to the argument; id, name and age are unchanged |
| CandidateModel.Candidate.constructor | src/Candidate.java:6-10 | a new candidate holds the given id and name and has no votes |
| CandidateModel.Candidate.IncrementVoteCount | src/Candidate.java:26-28 | the count grows by exactly one; id and name are unchanged |
| CandidateModel.Candidate.ToString | src/Candidate.java:31-34 | a candidate is displayed as its name |
| Decimal.IntToString | src/VotingManagementSystem.java:35 | the decimal text of an int is non-empty, all digits after an optional minus, and starts with a minus exactly for negative values |
| Decimal.DigitsRoundTrip | src/VotingManagementSystem.java:35 | reading back the digits printed for a natural number gives that number |
| Decimal.ParseInt | src/VotingManagementSystem.java:52 | a parsed value always fits in 32 bits and comes from a text of digits after an optional sign; anything else is the number-format error |
| Decimal.ParseIntRoundTrip | src/VotingManagementSystem.java:52 | every 32-bit int, printed in decimal, parses back to itself |
| Persistence.Split | src/VotingManagementSystem.java:48 | no field produced by splitting on commas contains a comma |
| Persistence.SplitJoined | src/VotingManagementSystem.java:48 | splitting comma-free fields joined by commas, the last one non-empty, gives those fields back |
| Persistence.ParseBool | src/VotingManagementSystem.java:53 | "true" reads as true, "false" reads as false, and only a four-letter text reads as true |
| Persistence.FormatVoter | src/VotingManagementSystem.java:35 | the saved voter line `id,name,age,hasVoted`; its meaning is given by VoterLineRoundTrip (it reads back as the same voter) and CommaInVoterIsLost (a comma in the text makes it unreadable) |
| Persistence.FormatCandidate | src/VotingManagementSystem.java:71 | the saved candidate line `id,name,voteCount`; its meaning is given by CandidateLineRoundTrip, CommaInCandidateIsLost and CountPastMaxIsBadNumber |
| Persistence.ParseVoterLine | src/VotingManagementSystem.java:48-57 | a line is skipped exactly when it does not have four fields. It is a number error exactly when it has four fields and the third does not parse as an int. A parsed voter takes its id and name from the first two fields, its age from parsing the third, and its flag from reading the fourth as a boolean |
| Persistence.ParseCandidateLine | src/VotingManagementSystem.java:84-95 | a line is skipped exactly when it does not have three fields. It is a number error exactly when it has three fields and the third does not parse as an int. A parsed candidate takes its id and name from the first two fields and its stored count from parsing the third |
| Persistence.VoterLineRoundTrip | src/VotingManagementSystem.java:32-57 | a saved voter line with comma-free text and a 32-bit age reads back as the same voter |
| Persistence.CandidateLineRoundTrip | src/VotingManagementSystem.java:68-95 | a saved candidate line with comma-free text and a 32-bit count reads back as the same candidate |
| Persistence.ReplayedCount | src/VotingManagementSystem.java:90-93 | the count left by replaying the stored number of increments on a new candidate; ReadCandidateLine proves its replay loop ends at this count, and NegativeCountLoadsAsZero shows a negative number gives 0 |
| Persistence.LoadVoterLines | src/VotingManagementSystem.java:43-66 | loading a voters file from an empty map; its meaning is given by VoterFileRoundTrip (a saved map reloads as itself), LoadVoterFailureSticks (a bad age aborts the whole load), WrongFieldCountSkipped and LoadedVotersSaveable |
| Persistence.LoadCandidateLines | src/VotingManagementSystem.java:79-104 | loading a candidates file from an empty map; its meaning is given by CandidateFileRoundTrip, LoadCandidateFailureSticks, WrongCandidateFieldCountSkipped, NegativeCountLoadsAsZero and LoadedCandidatesSaveable |
| Persistence.CommaInVoterIsLost | src/VotingManagementSystem.java:35-49 | a voter whose id or name contains a comma is saved as a line that loading skips |
| Persistence.CommaInCandidateIsLost | src/VotingManagementSystem.java:71-85 | a candidate whose id or name contains a comma is saved as a line that loading skips |
| Persistence.LoadVoterLine | src/VotingManagementSystem.java:47-58 | reading one voter line aborts the load exactly when the line parses to a bad number |
| Persistence.LoadCandidateLine | src/VotingManagementSystem.java:83-96 | reading one candidate line aborts the load exactly when the line parses to a bad number |
| Persistence.LoadedVotersSaveable | src/VotingManagementSystem.java:43-66 | every loaded voter sits under its own id and can be saved and read back |
| Persistence.LoadedCandidatesSaveable | src/VotingManagementSystem.java:79-104 | every loaded candidate sits under its own id, has a count that is not negative, and can be saved and read back |
| Persistence.NegativeCountLoadsAsZero | src/VotingManagementSystem.java:88-95 | a stored negative count reloads as a candidate with no votes, because the replay loop runs no times |
| Persistence.MaxCountLoads | src/VotingManagementSystem.java:88-95 | a stored count of `Integer.MAX_VALUE` loads unchanged, so a candidate can hold the largest int without any vote |
| Persistence.CountPastMaxIsBadNumber | src/VotingManagementSystem.java:88 | a count one past `Integer.MAX_VALUE`, saved in decimal, is a number error when read back |
| Persistence.WrongFieldCountSkipped | src/VotingManagementSystem.java:49 | a line without four fields leaves the loaded voters as they were |
| Persistence.WrongCandidateFieldCountSkipped | src/VotingManagementSystem.java:85 | a line without three fields leaves the loaded candidates as they were |
| Persistence.LoadVoterFailureSticks | src/VotingManagementSystem.java:52 | once an age fails to parse, loading the whole file fails, whatever follows |
| Persistence.LoadCandidateFailureSticks | src/VotingManagementSystem.java:88 | once a count fails to parse, loading the whole file fails, whatever follows |
| Persistence.FormatVoters | src/VotingManagementSystem.java:32-41 | saving writes exactly one line per voter visited |
| Persistence.FormatCandidates | src/VotingManagementSystem.java:68-77 | saving writes exactly one line per candidate visited |
| Persistence.FormatVotersLines | src/VotingManagementSystem.java:34-36 | the line written at each position is the saved form of the voter under the key visited there |
| Persistence.FormatCandidatesLines | src/VotingManagementSystem.java:70-72 | the line written at each position is the saved form of the candidate under the key visited there |
| Persistence.RestrictSnoc | src/VotingManagementSystem.java:34-36 | the records visited after one more key are those before plus that key's record |
| Persistence.LoadVoterAppend | src/VotingManagementSystem.java:47-57 | appending a saveable voter's line to a loadable file adds or replaces exactly that voter |
| Persistence.LoadCandidateAppend | src/VotingManagementSystem.java:83-95 | appending a saveable candidate's line to a loadable file adds or replaces exactly that candidate |
| Persistence.VoterLinesRoundTrip | src/VotingManagementSystem.java:32-66 | the lines saved for distinct keys load back as exactly the records under those keys |
| Persistence.CandidateLinesRoundTrip | src/VotingManagementSystem.java:68-104 | the lines saved for distinct keys load back as exactly the candidates under those keys |
| Persistence.VoterFileRoundTrip | src/VotingManagementSystem.java:32-66 | a voters file saved in any iteration order reloads as the same map, when text is comma-free and ages fit in 32 bits |
| Persistence.CandidateFileRoundTrip | src/VotingManagementSystem.java:68-104 | a candidates file saved in any iteration order reloads as the same map, when text is comma-free and counts fit in 32 bits |
| Iteration.InOrder | src/VotingGUI.java:226 | the values met in an iteration are, position by position, the map's values under the keys visited |
| Iteration.ListsLength | src/VotingManagementSystem.java:34 | an iteration over a map visits exactly as many keys as the map holds |
| ElectionSpec.RegisterVoter | src/VotingManagementSystem.java:107-118 | fails exactly for a taken id or an age under 18, changing nothing; otherwise adds exactly one voter, who has not voted, and leaves the candidates alone |
| ElectionSpec.RegisterCandidate | src/VotingManagementSystem.java:121-129 | fails exactly for a taken id, changing nothing; otherwise adds exactly one candidate with no votes and leaves the voters alone |
| ElectionSpec.CastVote | src/VotingManagementSystem.java:132-144 | fails exactly for an unknown voter, an unknown candidate or a voter who has already voted, changing nothing; otherwise marks the voter and adds one to the candidate |
| ElectionSpec.RegisterVoterFrame | src/VotingManagementSystem.java:114-117 | registration changes no existing voter and keeps every record under its own id |
| ElectionSpec.RegisterCandidateFrame | src/VotingManagementSystem.java:125-128 | registration changes no existing candidate and keeps every record under its own id |
| ElectionSpec.CastVoteFrame | src/VotingManagementSystem.java:138-143 | a vote adds and removes no id, changes no other voter or candidate, and keeps counts non-negative |
| ElectionSpec.ApplyKeepsWellFormed | src/VotingManagementSystem.java:107-144 | every operation keeps records under their own ids and counts non-negative |
| ElectionSpec.RunKeepsWellFormed | src/VotingManagementSystem.java:107-144 | any sequence of operations keeps records under their own ids and counts non-negative |
| ElectionSpec.TotalVotesWithout | src/VotingManagementSystem.java:140 | the sum of counts is one entry's count plus the sum over the rest |
| ElectionSpec.TotalVotesUpdate | src/VotingManagementSystem.java:140 | replacing one candidate changes the sum of counts by that candidate's difference alone |
| ElectionSpec.VotedCountAddFresh | src/VotingManagementSystem.java:114-115 | adding a voter who has not voted leaves the number who have voted unchanged |
| ElectionSpec.VotedCountMark | src/VotingManagementSystem.java:141 | marking a voter who had not voted adds exactly one to the number who have voted |
| ElectionSpec.ApplyKeepsSurplus | src/VotingManagementSystem.java:107-144 | no operation changes the total of the counts minus the number of voters who have voted |
| ElectionSpec.RunKeepsSurplus | src/VotingManagementSystem.java:107-144 | no sequence of operations changes the total of the counts minus the number of voters who have voted |
| ElectionSpec.RunFromEmpty | src/VotingManagementSystem.java:132-144 | from empty collections, the counts always add up to the number of voters who have voted |
| ElectionSpec.ApplyGrows | src/VotingManagementSystem.java:107-144 | no operation removes an entry, changes an id, name or age, clears a voted flag or lowers a count |
| ElectionSpec.RunGrows | src/VotingManagementSystem.java:107-144 | no sequence of operations removes an entry, changes an id, name or age, clears a voted flag or lowers a count |
| ElectionStore.VotingManagementSystem.ViewWellFormed | src/VotingManagementSystem.java:8-9 | every object in the store's maps sits under its own id, and no count is negative |
| ElectionStore.VotingManagementSystem.constructor | src/VotingManagementSystem.java:15-25 | a new store holds exactly what the two files load as, and the files are left as read |
| ElectionStore.VotingManagementSystem.LoadVoters | src/VotingManagementSystem.java:43-66 | fails exactly when some age in the file is not a number; otherwise the voters are exactly those the file loads as |
| ElectionStore.VotingManagementSystem.ReadVoterLine | src/VotingManagementSystem.java:47-58 | one pass of the loading loop does exactly what reading that voter line does to the records |
| ElectionStore.VotingManagementSystem.LoadCandidates | src/VotingManagementSystem.java:79-104 | fails exactly when some count in the file is not a number; otherwise the candidates are exactly those the file loads as |
| ElectionStore.VotingManagementSystem.ReadCandidateLine | src/VotingManagementSystem.java:83-96 | one pass of the loading loop, with its replay of increments, does exactly what reading that candidate line does to the records |
| ElectionStore.VotingManagementSystem.PutVoter | src/VotingManagementSystem.java:57 | stores the voter under its own id, replacing any earlier one, and nothing else |
| ElectionStore.VotingManagementSystem.PutCandidate | src/VotingManagementSystem.java:95 | stores the candidate under its own id, replacing any earlier one, and nothing else |
| ElectionStore.VotingManagementSystem.SaveVoters | src/VotingManagementSystem.java:32-41 | the voters file holds one line per voter, in some iteration order of the map |
| ElectionStore.VotingManagementSystem.SaveCandidates | src/VotingManagementSystem.java:68-77 | the candidates file holds one line per candidate, in some iteration order of the map |
| ElectionStore.VotingManagementSystem.SaveAllData | src/VotingManagementSystem.java:27-30 | both files hold the saved form of the current maps |
| ElectionStore.VotingManagementSystem.RegisterVoter | src/VotingManagementSystem.java:107-118 | does exactly what the voter registration function does to the store; on success the voters file holds the new voters, on failure it is unchanged |
| ElectionStore.VotingManagementSystem.RegisterCandidate | src/VotingManagementSystem.java:121-129 | does exactly what the candidate registration function does to the store; on success the candidates file holds the new candidates, on failure it is unchanged |
| ElectionStore.VotingManagementSystem.AddVote | src/VotingManagementSystem.java:140 | the chosen candidate's count goes up by one and nothing else in the store changes |
| ElectionStore.VotingManagementSystem.MarkVoted | src/VotingManagementSystem.java:141 | the voter is marked as voted and nothing else in the store changes |
| ElectionStore.VotingManagementSystem.CastVote | src/VotingManagementSystem.java:132-144 | does exactly what the vote function does to the store; on success both files hold the new state, on failure neither changes |
| ElectionStore.VotingManagementSystem.CandidateValues | src/VotingManagementSystem.java:147-149 | the candidates come out once each, in some iteration order of the map |
| ElectionStore.VotingManagementSystem.VoterCount | src/VotingManagementSystem.java:151-153 | the number of registered voters |
| Results.Scan | src/VotingGUI.java:219-235 | the scan's maximum is the largest count, or -1 with no candidates, and is reached by some candidate |
| Results.Visit | src/VotingGUI.java:228-233 | one step of the winner scan; its meaning over a whole scan is given by WinnerRule, through LargerTakesOver, EqualTies and SmallerKeeps |
| Results.WinnerRule | src/VotingGUI.java:226-235 | with counts that are not negative, the label is "Tie" exactly when the maximum is reached twice, and otherwise the name of the one candidate reaching it |
| Results.LargerTakesOver | src/VotingGUI.java:228-230 | a count above all earlier ones makes that candidate the sole holder of the maximum |
| Results.EqualTies | src/VotingGUI.java:231-232 | a count equal to the maximum so far makes the maximum reached twice |
| Results.SmallerKeeps | src/VotingGUI.java:226-235 | a count below the maximum so far changes neither the maximum nor whether it is tied |
| Results.TiedTransfers | src/VotingGUI.java:226-235 | whether a count is reached by two candidates depends only on the candidates, not on their order |
| Results.MaxAtMost | src/VotingGUI.java:226-235 | the scan's maximum is the same in every order of the same candidates |
| Results.VerdictOrderIndependent | src/VotingGUI.java:226-242 | with counts that are not negative, every order of the same candidates gives the same verdict |
| Results.ScanExamples | src/VotingGUI.java:228-233 | two equal counts tie, a smaller second count keeps the first name, and a larger third count takes over from a tie |
| Results.Decide | src/VotingGUI.java:237-242 | no verdict is printed exactly when there are no candidates; a winner is named exactly when someone has a vote, and it is the scan's label |
| Results.CandidateLine | src/VotingGUI.java:227 | the line listed for one candidate, its name and count; CandidateLinesInOrder places each candidate's line after those of the candidates iterated before it |
| Results.Report | src/VotingGUI.java:216-247 | the whole results text; DisplayResults is proved to build exactly this text for some iteration order, CandidateLinesInOrder gives the order of its lines, NoCandidatesReport its empty case, and Decide its verdict |
| Results.AppendedPrefix | src/VotingGUI.java:226-227 | the text built up to any candidate is a prefix of the text built over all of them |
| Results.CandidateLinesInOrder | src/VotingGUI.java:226-227 | each candidate's line follows the lines of the candidates iterated before it |
| Results.NoCandidatesReport | src/VotingGUI.java:223-224 | with no candidates, the report says so and names no winner |
| Results.DisplayResults | src/VotingGUI.java:216-247 | the text is the report over the candidates in some iteration order of the map, with the number of registered voters |

## Left out

- The Swing user interface is not part of this model: its dialogs, input fields, the parsing of the age typed in, and the text area. Only the results text that `displayResults` builds is modelled.
- File I/O: reading and writing are replaced by the two line-sequence fields. `IOException`, `FileNotFoundException` and the console messages are not modelled. An absent file is the empty sequence.
- ElectionStore.VotingManagementSystem.constructor: requires both files to load. A bad number in a file throws `NumberFormatException` out of the Java constructor, so no store comes into existence, and there is nothing to describe.
- ElectionStore.VotingManagementSystem.LoadVoters: on a bad number, the partly filled map is not described; only the failure is stated. LoadCandidates is treated the same way.
- CandidateModel.Candidate.IncrementVoteCount: does not model 32-bit wrap-around of the count at `Integer.MAX_VALUE`, because counts are unbounded here. That limit can be reached without any vote, since a stored count of 2147483647 loads as it is (`Persistence.MaxCountLoads`). One vote more then makes the two differ. Java wraps the count to -2147483648, saves that, and the next load turns it into 0 (the path of `Persistence.NegativeCountLoadsAsZero`). The model saves 2147483648 instead, which the next load reports as a number error (`Persistence.CountPastMaxIsBadNumber`), so no store can be built from that file.
- Ages passed to `RegisterVoter` are unbounded integers. Java's `int` parameter keeps them within 32 bits, and the round-trip lemmas require that bound.
- `Integer.parseInt` accepts only ASCII digits here; Java also accepts other Unicode decimal digits. `Boolean.parseBoolean` folds only ASCII letter case.
- `String.format("%d")` is taken to print ASCII digits, as in the default locale of most systems.
- Persistence.VoterFileRoundTrip: a line break inside an id or name is not modelled. The program writes with `println` and reads with `readLine`, which would split such a record into two lines, and the second line would load under a different id. The model keeps each saved record as one line.
- Persistence.CandidateFileRoundTrip: the same holds for candidates. A line break inside an id or name would split the saved record when read back, and this is not modelled.
- The iteration order of `HashMap` is not modelled. Saving, listing and the results scan are proved for every order of the keys.
- `getCandidates()` and `getVoters()` return the live maps; callers could change them through those references. That aliasing is left out. Only the two reads the report makes are modelled, as `CandidateValues` and `VoterCount`.
- The getters of `Voter` and `Candidate` are the `const` fields of the classes; `voteCount` and `hasVoted` are read directly.
