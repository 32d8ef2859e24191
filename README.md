# personal_scripts, modelled in Dafny

This project models the decision logic and bookkeeping of the helper
scripts in `berquist/personal_scripts`. These are small Python and Ruby
programs that generate and post-process inputs and outputs of quantum
chemistry packages (Q-Chem, ORCA, Dalton, GAMESS), submit cluster jobs and
check repository files. Each core script has one Dafny module. Its pure
helpers become functions with lemmas, and its loops become methods proved
against those functions. Python exceptions become `Err` values of a
`Result` type, and Python dictionaries become association lists, so the
insertion order is kept.

Shared modules:

- `Py` holds `Option`, `Result` and the Python exceptions as a datatype.
- `Strs` holds the Python string operations the scripts use: `join`,
  `split`, `strip`, `lower`, `replace`, `str(int)` and `int(str)`.
- `ODict` holds the insertion-ordered dictionary.

## Model

| member | source | states |
|---|---|---|
| LsTree.MungeStripsDotsSlash | osmium/lstree.rb:31-33 | one leading run of one or more dots followed by `/` is removed, and the rest is kept |
| LsTree.MungeKeepsOtherPaths | osmium/lstree.rb:31-33 | a path that does not start with dots and a slash is unchanged |
| LsTree.Walk | osmium/lstree.rb:34-40 | one line per entry below the root (the root itself is never printed) |
| LsTree.WalkIndented | osmium/lstree.rb:35-38 | every line of the walk starts with `indent` spaces, children one space deeper |
| LsTree.WalkAppend | osmium/lstree.rb:35-39 | the entries of a directory print one after the other: the lines of a run of entries are the lines of its first part followed by those of the rest |
| LsTree.BlockAt | osmium/lstree.rb:35-39 | the entry at any position prints its own line and listing right after all the lines of the entries before it |
| LsTree.BlockIndented | osmium/lstree.rb:36-38 | an entry's own line starts with `indent` spaces and every line of its listing with at least `indent`+1 |
| LsTree.WalkPreOrder | osmium/lstree.rb:35-39 | for the entry at any position: its line (`[` + munged path + `]` for a directory, the base name for a file) comes after the lines of its earlier siblings, and every line between it and its next sibling's line is one of its descendants' lines, indented deeper than the entry |
| LsTree.FileLine | osmium/lstree.rb:36-37 | a file's line is the indentation followed by its base name only |
| LsTree.Roots | osmium/lstree.rb:24 | the roots are the arguments, or `.` when there are none |
| LsTree.OutputAppend | osmium/lstree.rb:25-27 | roots are independent and printed in argument order |
| LsTree.TreeMain | osmium/lstree.rb:23-28 | the printed lines are each root's walk at indent 0, in order; no arguments prints the walk of `.` |
| LsTree.EmptyArgsLikeDot | osmium/lstree.rb:24 | an empty argument list behaves exactly like `['.']` |
| VmdTemplates.PadLeftZeros | vmd_templates.py:163-173 | the result has length max(len(str(num)), maxwidth), ends with str(num), any added prefix is all `0`, and it is str(num) when that is already wide enough |
| VmdTemplates.PadLeftZerosParses | vmd_templates.py:163-173 | `int()` reads a padded non-negative number back as the number; a padded negative number is rejected |
| VmdTemplates.MaxLenMeaning | vmd_templates.py:180-185 | the common width bounds every item's width and is attained by one of them (0 for an empty list) |
| VmdTemplates.WidestLength | vmd_templates.py:180-185 | the loop computes the widest `str(num)` of the list |
| VmdTemplates.PadLeftZerosList | vmd_templates.py:176-190 | length and order are kept, and each item is padded to the widest item's width |
| VmdTemplates.PaddedToCommonWidth | vmd_templates.py:176-190 | every padded item has exactly the common width |
| VmdTemplates.CovpRows | vmd_templates.py:152-156 | the pair at position idx gets its two zero-padded MO indices and the VMD indices 2*idx and 2*idx+1; earlier pairs have smaller VMD indices, and the rows together use exactly 0 .. 2n-1 |
| VmdTemplates.CovpIndicesPartition | vmd_templates.py:152-156 | for rows numbered as the loop numbers them, no two rows share a VMD index and together they use exactly the indices 0 .. 2n-1 |
| QueueUtils.Dashes | frank/queue_utils.py:7 | `'-' * n` is n dashes, and empty for n <= 0 |
| QueueUtils.MakeSpacedDashes | frank/queue_utils.py:6-7 | an empty list gives the empty string |
| QueueUtils.TotalLengthOfRuns | frank/queue_utils.py:7 | the runs together are as long as the sum of the widths |
| QueueUtils.SpacedDashesLength | frank/queue_utils.py:7 | the output length is the sum of the widths plus one space between neighbours |
| QueueUtils.SpacedDashesSplit | frank/queue_utils.py:7 | splitting the output at spaces gives back exactly the runs, zero-length runs included |
| BlameIgnoreRevs.HashesUpToMeaning | validate_git_blame_ignore_revs.py:43-49 | after n lines the map holds exactly the 1-based line numbers up to n whose stripped text is 40 lowercase hex characters, each mapped to that text |
| BlameIgnoreRevs.ParseGitBlameIgnoreRevs | validate_git_blame_ignore_revs.py:33-51 | a line is a valid hash iff its stripped text is 40 lowercase hex characters; it is keyed by its 1-based line number |
| BlameIgnoreRevs.LineClassification | validate_git_blame_ignore_revs.py:125-131 | for the hashes map and the `errors` comprehension (`Errors`): blank and comment lines are in neither map; every other line is in exactly one of them; an error keeps the stripped line text |
| BlameIgnoreRevs.LastCommentEmptyIff | validate_git_blame_ignore_revs.py:62 | the previous line's comment is empty iff the hash is on line 1 or the previous line is only whitespace and `#` |
| BlameIgnoreRevs.ErrorsUpToMeaning | validate_git_blame_ignore_revs.py:61-76 | the strict-comment errors after n lines are the valid hashes up to n with an empty comment, or missing from `git show` under the git check |
| BlameIgnoreRevs.DiffsUpToMeaning | validate_git_blame_ignore_revs.py:67-73 | the comment differences are the hashes whose commit subject does not start with the comment, paired with both texts |
| BlameIgnoreRevs.ValidateCommitHashes | validate_git_blame_ignore_revs.py:54-78 | a hash is flagged iff strict comments are on and its comment is empty, or the git check cannot show it; both maps are empty when both flags are off |
| FindCO2Frequencies.FirstFromMeaning | find_CO2_frequencies.py:26-49 | the reference search returns the least match position from p, or -1 when there is none |
| FindCO2Frequencies.FirstOccurrenceMeaning | find_CO2_frequencies.py:26-49 | the least position at which the needle occurs, or -1; a non-negative result is at most len(haystack) - len(needle) |
| FindCO2Frequencies.SkipUpToMeaning | find_CO2_frequencies.py:39 | the skip table holds each element of needle[:-1] mapped to its distance from the end, the last occurrence winning |
| FindCO2Frequencies.ShiftMeaning | find_CO2_frequencies.py:43 | every skip is between 1 and len(needle), and lands on the nearest earlier copy of the character |
| FindCO2Frequencies.ShiftIsSafe | find_CO2_frequencies.py:41-44 | no match starts strictly inside a skipped window |
| FindCO2Frequencies.Find | find_CO2_frequencies.py:26-49 | Boyer-Moore-Horspool returns the least match position or -1, and terminates for a non-empty needle |
| FindCO2Frequencies.LeastMatch | find_CO2_frequencies.py:26-49 | a match with none before it is the result |
| FindCO2Frequencies.NoMatchMeansMinusOne | find_CO2_frequencies.py:49 | no match gives -1 |
| FindCO2Frequencies.FindExample | find_CO2_frequencies.py:31-32 | `find([1, 1, 2], [1, 2]) == 1` |
| FindCO2Frequencies.FindAllInstances | find_CO2_frequencies.py:52-66 | the loop computes the reference result `AllFrom`, with the duplicate check as written |
| FindCO2Frequencies.AllFromUnfold | find_CO2_frequencies.py:58-64 | one loop step: search the suffix, append start+index unless the relative index is already listed, advance by index+1 |
| FindCO2Frequencies.SuffixMatch | find_CO2_frequencies.py:59 | a match in the suffix at q is a match in the haystack at start+q |
| FindCO2Frequencies.AllFromIncreasing | find_CO2_frequencies.py:52-66 | positions are only ever added past the ones already listed, so the result strictly increases |
| FindCO2Frequencies.AllFromWithin | find_CO2_frequencies.py:52-66 | every position added is one of the occurrences at or after the position reached |
| FindCO2Frequencies.FindAllInstancesSound | find_CO2_frequencies.py:52-66 | `find_all_instances` reports only true occurrences, in strictly increasing order |
| FindCO2Frequencies.FindAllInstancesSkipsOccurrence | find_CO2_frequencies.py:62-64 | on haystack `[0, 0]` and needle `[0]` the occurrence at 1 is dropped |
| FindCO2Frequencies.OccurrencesExact | find_CO2_frequencies.py:52-66 | without the faulty duplicate check, the result is exactly the occurrences from start, increasing |
| FindCO2Frequencies.FindAllOccurrences | find_CO2_frequencies.py:52-66 | the corrected loop returns every occurrence and nothing else, strictly increasing |
| FindCO2Frequencies.OccurrencesStep | find_CO2_frequencies.py:58-64 | one round of the corrected loop keeps collected-plus-remaining equal to all occurrences |
| Blacklight.Remainder | blacklight/blacklight.py:20 | the score size - (len % size) is in [1, size], and equals size exactly for a divisible length |
| Blacklight.OptimalGroupSize | blacklight/blacklight.py:10-24 | with min <= max the result minimises the score over [min, max], ties to the larger size, unless every score reaches the 999 sentinel; min > max gives 999; a range containing 0 raises ZeroDivisionError |
| Blacklight.InRangeBelowSentinel | blacklight/blacklight.py:15-24 | an optimal size whose score is below 999 lies in [min, max] |
| Blacklight.SentinelEscapesRange | blacklight/blacklight.py:16 | a size of 1000 over an empty list returns 999, outside [1000, 1000] |
| Blacklight.OptimalGroupSizeFixed | blacklight/blacklight.py:10-24 | with no sentinel bound, the result is always in [min, max] and optimal when min <= max |
| Blacklight.TerminatedJoin | blacklight/blacklight.py:38-48 | adding the delimiter after each element then the last element is `delim.join` |
| Blacklight.AddDelimiters | blacklight/blacklight.py:38-48 | the loop stops at the first element equal to l[-1] and returns None for an empty list |
| Blacklight.AddDelimitersIsJoin | blacklight/blacklight.py:38-48 | when l[-1] occurs only at the end, the result is delim.join(l) |
| Blacklight.AddDelimitersStopsEarly | blacklight/blacklight.py:44-47 | `["a", "b", "a"]` gives `"a"` |
| Blacklight.GenCpString | blacklight/blacklight.py:50-54 | the string is wrapped in braces; an empty list raises TypeError (concatenating None) |
| Blacklight.GenCpStringIsBraceList | blacklight/blacklight.py:50-54 | for a list whose last element occurs once, the result is `{` + comma join + `}` |
| Blacklight.GenJobStrings | blacklight/blacklight.py:26-36 | the loop builds one line per file, the k-th at CPU offset 16*k |
| Blacklight.JobStringsTerminated | blacklight/blacklight.py:26-36 | the job strings are the per-file lines, each ended by a newline |
| Blacklight.JobStringsLines | blacklight/blacklight.py:26-36 | splitting the job strings at newlines gives back each file's line, in order |
| Blacklight.JobStringsPrefix | blacklight/blacklight.py:31-36 | the text for the first i files begins the text for the whole group: later files only append |
| Blacklight.JobsFitInCpus | blacklight/blacklight.py:31-98 | the k-th file's command (`dplace -c` at offset 16*k) follows the commands for the files before it, and its sixteen CPUs lie below the `ncpus` = 16 per file that the job file requests |
| QChemCovpAnalysis.GetNOccVirtPerFragment | qchem_covp_analysis.py:203-213 | the four counts sum to n_mo, n_occ_1 = idx_occ_2 and n_occ_1 + n_occ_2 = idx_virt_2; ordered indices give non-negative counts |
| QChemCovpAnalysis.PositionsMeaning | qchem_covp_analysis.py:192-193 | `np.where(e == v)`: exactly the positions holding v, increasing |
| QChemCovpAnalysis.ParseEnergyBlock | qchem_covp_analysis.py:177-200 | idx_occ_1 = 0 and idx_virt_2 = n_occ_t; idx_occ_2 is the first position of energies[n_occ_t], idx_virt_1 the second of energies[0]; a missing position is IndexError, a failed assertion AssertionError |
| QChemCovpAnalysis.ParseEnergyBlockOutcome | qchem_covp_analysis.py:192-197 | exactly when each outcome happens: IndexError iff n_occ_t is past the end or the energy at 0 or at n_occ_t occurs only once; AssertionError iff both repeat but n_occ_t is not the second occurrence of its energy; success iff the energy at 0 repeats and n_occ_t is the second occurrence of its energy |
| QChemCovpAnalysis.PositionsRepeat | qchem_covp_analysis.py:196-197 | `np.where` yields a second position (`[1]` does not raise) iff the energy occurs at some other position too |
| QChemCovpAnalysis.PositionsSecond | qchem_covp_analysis.py:197 | the second position `np.where` yields is i iff exactly one earlier position holds the energy at i |
| QChemCovpAnalysis.LabelRegions | qchem_covp_analysis.py:159-167 | each index gets exactly one of the four labels by half-open ranges; anything else is `1 -> 2 virt` |
| QChemCovpAnalysis.MapIdxToCovp | qchem_covp_analysis.py:158-167 | every idx in [0, n_orb_t) is mapped to its label, and nothing else is in the map |
| QChemCovpAnalysis.AssignOrbitals | qchem_covp_analysis.py:141-146 | each entry gets orb_occ = index + occ offset and orb_virt = index + virt offset, its index unchanged |
| QChemCovpAnalysis.AssignBothDirections | qchem_covp_analysis.py:141-146 | 1→2 entries get orb_occ = index and orb_virt = index + n_occ_1 + n_occ_2 + n_virt_1; 2→1 entries get orb_occ = index + n_occ_1 and orb_virt = index + n_occ_1 + n_occ_2 |
| QChemCovpAnalysis.DetermineFragmentIndices | qchem_covp_analysis.py:94-174 | on success the counts, entry orbitals and label map are those above, from n_occ_t = idx_homo + 1; on an error nothing is changed |
| QChemCovpAnalysis.EntryLabelsMatchDirection | qchem_covp_analysis.py:141-167 | the orbitals assigned to an entry fall in the label region of its own direction |
| OrcaMakeRelInputs.UpdateFromPerKey | orca_make_rel_inputs.py:79-87 | keys only in d are kept, each non-mapping u[k] overwrites d[k], and nested mappings are merged recursively |
| OrcaMakeRelInputs.UpdateIntoEmptyCopies | orca_make_rel_inputs.py:79-87 | updating an empty dict with u gives u |
| OrcaMakeRelInputs.DefaultsThenChoices | orca_make_rel_inputs.py:79-87 | a key the choices do not touch keeps its default |
| OrcaMakeRelInputs.SetFlagMeaning | orca_make_rel_inputs.py:94-97 | the copy has [block_title][option] set to the flag, the block created if absent, nothing else changed; a block holding a string raises TypeError |
| OrcaMakeRelInputs.FlagOverDicts | orca_make_rel_inputs.py:93-98 | the inner loop sets one flag on a copy of each dict, in order |
| OrcaMakeRelInputs.AddFlagsToListOfDicts | orca_make_rel_inputs.py:91-99 | the nested loops compute `AddFlags`: flags outer, dicts inner, inputs not mutated |
| OrcaMakeRelInputs.CollectMeaning | orca_make_rel_inputs.py:93-98 | collecting stops at the first error; otherwise all results are kept in order |
| OrcaMakeRelInputs.CollectRowsMeaning | orca_make_rel_inputs.py:92-98 | the rows are concatenated in order, with the first error winning |
| OrcaMakeRelInputs.AddFlagsFails | orca_make_rel_inputs.py:94-97 | the result fails iff there is a flag and some dict's block holds a string, and then with TypeError |
| OrcaMakeRelInputs.AddFlagsLength | orca_make_rel_inputs.py:91-99 | there are len(flags) * len(list) outputs |
| OrcaMakeRelInputs.AddFlagsAt | orca_make_rel_inputs.py:91-99 | output g*len(list) + x is dict x with flag g set |
| OrcaMakeRelInputs.AddFlagsOrder | orca_make_rel_inputs.py:91-99 | every output is placed flags-outer, dicts-inner |
| OrcaMakeRelInputs.CommaSepFlagsRoundTrip | orca_make_rel_inputs.py:102-107 | splitting the result at `,` and reading each piece with `int()` gives back the list |
| OrcaMakeRelInputs.PrefixEachMembers | orca_make_rel_inputs.py:57-62 | one product step prefixes each tuple with each value of the range |
| OrcaMakeRelInputs.ProductMeaning | orca_make_rel_inputs.py:57-62 | `itertools.product` of ranges has the product of their sizes as length and holds exactly the in-range tuples |
| OrcaMakeRelInputs.OptionsSocflagsShape | orca_make_rel_inputs.py:57-62 | `options_socflags` has 2*5*5*2 = 100 tuples, exactly those in range |
| OrcaMakeRelInputs.MakeBlock | orca_make_rel_inputs.py:110-125 | the block is its lines joined with newlines |
| OrcaMakeRelInputs.BlockLinesReadBack | orca_make_rel_inputs.py:116-125 | the first line is `%name`, then one ` k v` line per entry in order, then ` end` |
| StrOrder.SortedSpec | chemistry/qchem_make_excited_state_inputs.py:171 | `sorted` of distinct keys is a permutation of them in increasing Python string order |
| StrOrder.SortedMembers | chemistry/qchem_make_excited_state_inputs.py:171 | every key appears in the sorted list, and nothing else |
| QChemExcitedStateInputs.FirstKeyContainingMeaning | chemistry/qchem_make_excited_state_inputs.py:91-98 | the reference result is the first key in dictionary order containing kp as a substring, or none (-1) when no key contains it |
| QChemExcitedStateInputs.KeyPartialMatch | chemistry/qchem_make_excited_state_inputs.py:91-98 | the loop returns the first key containing kp, else -1 |
| QChemExcitedStateInputs.WhichCcmanString | chemistry/qchem_make_excited_state_inputs.py:101-107 | `ccman2` exactly for a truthy value, else `ccman1` |
| QChemExcitedStateInputs.BoolToStr | chemistry/qchem_make_excited_state_inputs.py:158-165 | `true` for values equal to True (True and 1), `false` for values equal to False, otherwise the script exits |
| QChemExcitedStateInputs.StripParensSpec | chemistry/qchem_make_excited_state_inputs.py:137-150 | no parenthesis survives, and without a `)` each `(` becomes `_` in place |
| QChemExcitedStateInputs.MethodNameExample | chemistry/qchem_make_excited_state_inputs.py:149-150 | method `cis(d)` is named `cis_d` |
| QChemExcitedStateInputs.EomNameParts | chemistry/qchem_make_excited_state_inputs.py:119-147 | the EOM name is `eom-<states prefix>-<corr>`, then `-ri` with aux_basis, then `-cd` with cholesky_tol |
| QChemExcitedStateInputs.CorrPieceCases | chemistry/qchem_make_excited_state_inputs.py:127-139 | `sdt` maps to `cc23` under ccsd and to `cisdt` under ci; non-sdt under ccsd is `ccsd`; under ci the parentheses are gone |
| QChemExcitedStateInputs.NameKept | chemistry/qchem_make_excited_state_inputs.py:152-155 | an existing `_name` is never overwritten; otherwise the name is stored under `_name` and every other option is kept |
| QChemExcitedStateInputs.Options.MethodToName | chemistry/qchem_make_excited_state_inputs.py:110-155 | the options become the result of `WithName`; on an exception they are unchanged |
| QChemExcitedStateInputs.Options.DictKeysPrivateToPublic | chemistry/qchem_make_excited_state_inputs.py:181-186 | succeeds, changing nothing, iff no key is empty or starts with `_`; otherwise IndexError or RuntimeError, and IndexError with nothing changed when the first such key is empty |
| QChemExcitedStateInputs.InpfileParamsToRemString | chemistry/qchem_make_excited_state_inputs.py:168-178 | the loop over the sorted keys computes `RemString` |
| QChemExcitedStateInputs.PublicMembers | chemistry/qchem_make_excited_state_inputs.py:173 | the listed keys are exactly those not starting with `_` |
| QChemExcitedStateInputs.PublicIncreasing | chemistry/qchem_make_excited_state_inputs.py:171-173 | skipping private keys keeps the sorted order |
| QChemExcitedStateInputs.RemLinesMeaning | chemistry/qchem_make_excited_state_inputs.py:171-177 | without an empty key, the lines are ` k = v` for the public keys in order, bools rendered `true`/`false` |
| QChemExcitedStateInputs.RemStringMeaning | chemistry/qchem_make_excited_state_inputs.py:168-178 | the rem string fails (IndexError on `k[0]`) iff some key is empty; otherwise it lists each public key once, in increasing order |
| OrcaMakeEprInputs.FindRiChoice | chemistry/orca_make_epr_inputs.py:212-214 | the inner loop returns the first RI choice whose exchange handling equals the requested one, or none |
| OrcaMakeEprInputs.DetermineRiFlags | chemistry/orca_make_epr_inputs.py:203-218 | the loop over the functionals computes `RiFlags`: a pure match returns at once, a hybrid match returns only when an RI choice matches, and running off the end gives `nori` |
| OrcaMakeEprInputs.FirstNamed | chemistry/orca_make_epr_inputs.py:204-205 | the first match: the position found holds an entry with the requested name, lies in the searched range, and no entry between the start and it has that name (so `|table|` means none does) |
| OrcaMakeEprInputs.RiFlagsSkip | chemistry/orca_make_epr_inputs.py:204-205 | entries with other names do not change the flags |
| OrcaMakeEprInputs.RiFlagsCases | chemistry/orca_make_epr_inputs.py:203-218 | an unknown functional gives `nori`; a pure one `nori` under `--no-ri` and `ri` otherwise; a hybrid one `ri <exx>` for each of `rijonx`, `rijcosx`, `rijk` |
| OrcaMakeEprInputs.HybridChoice | chemistry/orca_make_epr_inputs.py:60-71 | each exchange handling accepted on the command line has an `ri` entry in the hybrid table |
| OrcaMakeEprInputs.SelectAuxBasisFamily | chemistry/orca_make_epr_inputs.py:273-294 | the loop over the families computes `AuxBasisFamily` of the lowercased basis name |
| OrcaMakeEprInputs.FamilyFromMeaning | chemistry/orca_make_epr_inputs.py:279-294 | the family of the first key that occurs in the basis name is chosen, and `def2-qzvpp` when no key occurs |
| OrcaMakeEprInputs.FamilyExample | chemistry/orca_make_epr_inputs.py:279-292 | `Def2-TZVP` selects `def2-tzvpp`: case does not matter, and `def2-sv` does not match it |
| OrcaMakeEprInputs.DetermineAuxBasis | chemistry/orca_make_epr_inputs.py:221-270 | computes `AuxBasis`, including the functional loop that has no effect |
| OrcaMakeEprInputs.AuxBasisCases | chemistry/orca_make_epr_inputs.py:236-251 | `--no-ri` and `nori` give no auxiliary basis; `ri`, `rijonx`, `rijcosx` give the family with `/j`, `rijk` with `/jk`; another ri_type is a KeyError |
| OrcaMakeEprInputs.RiTypeOfWords | chemistry/orca_make_epr_inputs.py:360 | the ri_type taken from the flags is their last word |
| OrcaMakeEprInputs.DefaultRiType | chemistry/orca_make_epr_inputs.py:358-360 | with RI-JK requested, the derived ri_type is `nori` for an unknown functional, `ri` for a pure one and `rijk` for a hybrid one |
| OrcaMakeEprInputs.AuxBasisIgnoresFunctional | chemistry/orca_make_epr_inputs.py:252-258 | with an empty ri_type, `pbe` gets no auxiliary basis as written, but the family with `/j` under the documented defaults |
| OrcaMakeEprInputs.AuxBasisFixedAgreesWithFlags | chemistry/orca_make_epr_inputs.py:222-230 | under the documented defaults, an empty ri_type gives the same auxiliary basis as the ri_type of the default flags |
| OrcaMakeEprInputs.PointchargeLine | chemistry/orca_make_epr_inputs.py:196-200 | a given, non-empty point-charge file yields `%pointcharges "<file>"` with the name between the quotes; otherwise the line is empty, and only then |
| OrcaMakeEprInputs.AuxBasisFixed | chemistry/orca_make_epr_inputs.py:222-230 | the documented order of precedence: `--no-ri` and an explicit ri_type behave as before; with an empty ri_type a known functional always gets an auxiliary basis; only an unknown ri_type is an error |
| ParseDiffFile.SanitizeSpec | parse_diff_file.py:5-7 | the sanitized name has the same length, no `/`, and differs from the name only where the name had `/`, which became `_` |
| ParseDiffFile.SanitizeIdempotent | parse_diff_file.py:5-7 | sanitizing twice is sanitizing once |
| PosixPath.LastIndex | parse_diff_file.py:85-87 | the position found holds the character and no later position does; -1 when there is none |
| PosixPath.SplitExtMeaning | parse_diff_file.py:85-88 | `os.path.splitext`: root and extension concatenate to the path; a non-empty extension is one `.` followed by neither `.` nor `/` |
| ParseDiffFile.HunkFilesMeaning | parse_diff_file.py:25-35 | a hunk is written exactly when the left or the right section is non-empty, as two files holding the left and the right section |
| ParseDiffFile.HunkRightStartFails | parse_diff_file.py:118-120 | the right start line indexes the second piece of a string that has no space, so every `@@` line raises IndexError |
| ParseDiffFile.HandleLine | parse_diff_file.py:63-135 | one iteration of the loop computes `Step`, testing `---`, `+++`, `@@`, `-`, `+` and `\` in that order |
| ParseDiffFile.HandleLines | parse_diff_file.py:61-136 | the loop over the lines, stopping at the first exception, computes `Run` from the initial state |
| ParseDiffFile.SplitDiffFile | parse_diff_file.py:61-152 | the loop, then the last hunk when the loop ended normally, computes `SplitDiff` |
| ParseDiffFile.BodyStep | parse_diff_file.py:123-135 | a line that opens no file and no hunk writes nothing and adds its left and right parts to the sections |
| ParseDiffFile.BodyRun | parse_diff_file.py:123-135 | a run of such lines writes nothing and appends to each section, in order, what each line contributes: `-` lines left only, `+` lines right only, without their marker and with a newline; `\` lines nowhere; other lines to both |
| ParseDiffFile.FileHeaderFirst | parse_diff_file.py:64-90 | `---` is checked before `-`: it counts a new file and resets the hunk counter and both sections |
| ParseDiffFile.RightHeaderFirst | parse_diff_file.py:91-97 | `+++` is checked before `+`: it names the right file, writes nothing and leaves both sections alone |
| ParseDiffFile.HunkHeaderEndsRun | parse_diff_file.py:98-120 | an `@@` line writes the pending hunk when a file was seen and then raises IndexError, or raises UnboundLocalError when no `+++` line named the right file |
| ParseDiffFile.HunkHeaderFails | parse_diff_file.py:98-120 | a diff with any `@@` line never completes its loop |
| ParseDiffFile.RunCounts | parse_diff_file.py:64-97 | a run that ends normally advanced the file counter once per `---` line, and the hunk counter and both start lines keep their initial values |
| ParseDiffFile.SplitDiffCounts | parse_diff_file.py:48-154 | on success the file counter is the number of `---` lines minus one and the hunk counter is 0 |
| ParseDiffFile.HunkStartsFixedParses | parse_diff_file.py:118-120 | the intended parser reads `a` and `c` from `@@ -a,b +c,d @@` |
| ParseDiffFile.HunkStartsAsWrittenFail | parse_diff_file.py:118-120 | as written, the same header raises IndexError |
| Xyz2Dalton.AtomNumbers | chemistry/xyz2dalton.py:69 | one atomic number per symbol; an error exactly when some symbol is missing from the periodic table, and that error is KeyError |
| Xyz2Dalton.AtomNumbersLookup | chemistry/xyz2dalton.py:69 | on success every symbol is in the table and the k-th number is the k-th symbol's atomic number |
| Xyz2Dalton.AtomSymbolsNoBlank | chemistry/xyz2dalton.py:68 | without blank lines there is one symbol per line |
| Xyz2Dalton.AtomSymbolsSkipBlanks | chemistry/xyz2dalton.py:68 | blank lines yield no symbol |
| Xyz2Dalton.AtomSymbolsBlank | chemistry/xyz2dalton.py:68 | a blank line anywhere leaves fewer symbols than lines |
| Xyz2Dalton.RunsBasic | chemistry/xyz2dalton.py:72-83 | the runs of equal consecutive atomic numbers cover every atom, are empty only for no atoms, and the last run holds the last atom's number |
| Xyz2Dalton.RunsMaximal | chemistry/xyz2dalton.py:74 | every run is non-empty and neighbouring runs hold different numbers |
| Xyz2Dalton.RunsExpand | chemistry/xyz2dalton.py:72-83 | expanding the runs gives back the atomic numbers, in order |
| Xyz2Dalton.RunsCount | chemistry/xyz2dalton.py:74-86 | there is one run more than there are changes of atomic number, so an element that comes back after another starts a new run |
| Xyz2Dalton.OutputShape | chemistry/xyz2dalton.py:81-92 | for n > 0 atoms in k runs the section has n + k + 1 lines and its first line is `Atomtypes=k ...` with k one more than the number of changes |
| Xyz2Dalton.TrailingBlanks | chemistry/xyz2dalton.py:68-72 | blank lines after the atom lines do not change the result |
| Xyz2Dalton.BlankLineShift | chemistry/xyz2dalton.py:68-72 | with a blank line anywhere there are fewer atoms than lines and only the first lines, one per atom, are used, so a blank line among the atoms shifts the pairing |
| Xyz2Dalton.CloseRun | chemistry/xyz2dalton.py:78-85 | inserting the open run's header `count` lines from the end completes the layout with that run |
| Xyz2Dalton.SeenFirst | chemistry/xyz2dalton.py:72-83 | the first atom opens the first run without a header |
| Xyz2Dalton.SeenNew | chemistry/xyz2dalton.py:74-83 | an atom with a different number closes the open run with its header and opens a run of one |
| Xyz2Dalton.SeenSame | chemistry/xyz2dalton.py:81-83 | an atom with the same number extends the open run by its line |
| Xyz2Dalton.Advance | chemistry/xyz2dalton.py:73-83 | one pass of the loop keeps the loop state: the runs seen so far are the closed ones laid out plus the open one's lines |
| Xyz2Dalton.GroupAtoms | chemistry/xyz2dalton.py:70-83 | after the loop, every run but the last is laid out with its header and the last run's lines follow without one; nothing is produced for no atoms |
| Xyz2Dalton.FinishEmpty | chemistry/xyz2dalton.py:84-90 | with no atoms the section is the molecule header for one atom type and a run header with no charge and zero atoms |
| Xyz2Dalton.FinishRuns | chemistry/xyz2dalton.py:84-90 | after the loop, inserting the last run's header and the molecule header (atom types one more than the closed runs) gives the whole section |
| Xyz2Dalton.Xyz2DaltonFromSplitlines | chemistry/xyz2dalton.py:57-92 | the whole function computes `FromSplitlines`: KeyError for an unknown symbol, else the molecule header and each run's header followed by its lines, joined with newlines |
| Compare.ZipWidth | compare.py:30-31 | the zip is as long as the shortest path, and empty without paths |
| Compare.ScanFromMeaning | compare.py:31-33 | the scan stops at the first disagreeing position, or at the last position when all agree |
| Compare.StripCommonIndex | compare.py:29-34 | `i` is the first position where the paths disagree, or the last compared position when none does; an empty zip leaves `i` unbound (UnboundLocalError) |
| Compare.StripCommonAllAgree | compare.py:31-34 | when all zipped components agree, `i` is the last compared position, not one past it |
| Compare.StripCommonRebuild | compare.py:29-34 | each result is its path with the first `i` parts dropped, and those parts are shared by every path |
| Compare.StripCommon | compare.py:29-34 | the loop with its `break` computes `StripCommonSpec` |
| Compare.InitDiffType | compare.py:124-129 | SAME iff the digests are equal, else SOMETHING_ELSE_DIFFERS; INNER_PATHS_DIFFER is never produced |
| Compare.MakeDiff | compare.py:116-129 | a diff keeps its files and digests and derives its type from the digests |
| QChemFreqFromOpt.RaiseMeaning | qchem_make_freq_input_from_opt.py:60-65 | one guarded step raises a present value below the minimum to the minimum, keeps one at or above it, keeps every other key and value, and raises ValueError exactly when the present value is not an integer |
| QChemFreqFromOpt.RaiseIdempotent | qchem_make_freq_input_from_opt.py:60-65 | a second pass of a step changes nothing |
| QChemFreqFromOpt.CleanUpRemMeaning | qchem_make_freq_input_from_opt.py:49-67 | `thresh` below 12 becomes 12 and `scf_convergence` below 9 becomes 9; no key is added, no other value changes, and ValueError is raised exactly when one of the two present values is not an integer |
| QChemFreqFromOpt.CleanUpRemIdempotent | qchem_make_freq_input_from_opt.py:56-65 | cleaning an already cleaned `$rem` changes nothing |
| QChemFreqFromOpt.TemplateInputFreq | qchem_make_freq_input_from_opt.py:26-46 | the loop and the template give the `$rem` block with ` jobtype = freq` followed by the copied keyword lines, then the `$molecule` block |
| QChemFreqFromOpt.RemPiecesConcat | qchem_make_freq_input_from_opt.py:32-34 | the lines collected from two runs of entries are those of each run, in order |
| QChemFreqFromOpt.RemPiecesAll | qchem_make_freq_input_from_opt.py:32-34 | without a `jobtype` entry there is one ` k = v` line per entry, in dictionary order |
| QChemFreqFromOpt.RemPiecesDropJobtype | qchem_make_freq_input_from_opt.py:28-34 | an incoming `jobtype` entry is dropped: the lines are those of the dictionary without it |
| QChemFreqFromOpt.JobtypeLineKey | qchem_make_freq_input_from_opt.py:34-39 | a copied ` k = v` line equals ` jobtype = freq` only when the key is `jobtype` |
| QChemFreqFromOpt.JobtypeOnce | qchem_make_freq_input_from_opt.py:28-46 | the ` jobtype = freq` line is never among the copied lines, so the input states the job type once |
| PosixPath.SplitExtOfStubExt | clusters/haswell/submit_qchem_batch.py:87 | `os.path.splitext` of a plain `name.ext` gives back `name` and `.ext` |
| SubmitQChemBatch.MakeCommandBlock | clusters/haswell/submit_qchem_batch.py:79-92 | the loop over the inputs builds one command per input, in input order, joined with `\n`; zero nodes raise ZeroDivisionError as soon as there is an input |
| SubmitQChemBatch.CommandsAt | clusters/haswell/submit_qchem_batch.py:86-90 | the `k`-th command runs the `k`-th input's stub on node `k % nnodes` |
| SubmitQChemBatch.RoundRobin | clusters/haswell/submit_qchem_batch.py:88-89 | for positive `nnodes` the node index lies in `[0, nnodes)`, the first `nnodes` inputs get nodes `0..nnodes-1`, and input `k + nnodes` shares the node of input `k` |
| SubmitQChemBatch.BlockLines | clusters/haswell/submit_qchem_batch.py:85-91 | for inputs without newlines the block splits at `\n` into exactly the commands, one per input |
| SubmitQChemBatch.CommandOneLine | clusters/haswell/submit_qchem_batch.py:84 | a command is a single line when its stub is |
| SubmitQChemBatch.CommandUsesStub | clusters/haswell/submit_qchem_batch.py:84-90 | the command for `name.ext` reads `name.in` and writes `name.out` |
| SubmitQChemBatch.CheckClusterMeaning | clusters/haswell/submit_qchem_batch.py:100-116 | smp: partition smp (ppn and ppj at most 24) or high-mem (at most 12) on exactly one node; mpi: partition opa, ppn and ppj at most 28, at least two nodes; other clusters are not checked; a failed check is AssertionError |
| SubmitQChemBatch.MainMeaning | clusters/haswell/submit_qchem_batch.py:98-131 | on a checked cluster `main` gets as far as the job file exactly when the checks pass, with the command block and `ntasks = ppn * nnodes` |
| PbsJobMaker.GetOpts | frank/other/pbsJobMaker.py:3-19 | the `while argv` loop, which drops two arguments after a flag and one otherwise and so always ends, returns `GetOptsFrom(argv, {})` |
| PbsJobMaker.GetOptsPairs | frank/other/pbsJobMaker.py:9-13 | each `-x value` pair is assigned as `opts['-x'] = value`, pair by pair in order, whatever the value looks like |
| PbsJobMaker.SkipWord | frank/other/pbsJobMaker.py:15-17 | an argument not starting with `-` is skipped on its own |
| PbsJobMaker.TrailingFlag | frank/other/pbsJobMaker.py:9-11 | a flag with no value after it, or an empty argument, raises IndexError |
| PbsJobMaker.AssignLastWins | frank/other/pbsJobMaker.py:11 | a key holds the value of its last pair: a later duplicate flag overwrites an earlier one |
| PbsJobMaker.AssignUntouched | frank/other/pbsJobMaker.py:11 | a key that no pair names keeps its entry or its absence |
| PbsJobMaker.GetOptsSound | frank/other/pbsJobMaker.py:7-17 | every key of the result is a flag that occurs in the arguments followed by its value |
| OrcaPlotStrings.MoString | orca_generate_plot_strings.py:50-62 | a line exists exactly for operators 0 and 1 (spin `a` and `b`); any other operator gives `None` |
| OrcaPlotStrings.SpinFilesDiffer | orca_generate_plot_strings.py:52-58 | the alpha and beta lines of an orbital agree up to the spin letter of the file name, `a` against `b`, so they name different cubes |
| OrcaPlotStrings.GenerateBlock | orca_generate_plot_strings.py:97-178 | the appends of `generate_block` (head, densities, the `--max` step, natural orbitals, canonical orbitals, ` end`) joined with `\n` give `BlockSpec` |
| OrcaPlotStrings.AppendUnoLines | orca_generate_plot_strings.py:156-157 | the loop appends one natural-orbital line per orbital, in order |
| OrcaPlotStrings.AppendCanonLines | orca_generate_plot_strings.py:169-172 | the loop appends each orbital's alpha line, and with `--beta` its beta line |
| OrcaPlotStrings.PaddedNumbers | orca_generate_plot_strings.py:146-155 | an orbital option's numbers, padded by `pad_left_zeros_l`, or the error of reading them |
| OrcaPlotStrings.PlotPartsShape | orca_generate_plot_strings.py:110-174 | the block starts with `%plots`, the format line, dim1..dim3 and the density lines (eldens before spindens), and ends with ` end` |
| OrcaPlotStrings.CanonLinesAt | orca_generate_plot_strings.py:169-172 | with `--beta` the lines of orbital `k` sit at `2k` (alpha) and `2k+1` (beta); without it at `k`; there are twice as many or as many lines as orbitals |
| OrcaPlotStrings.TwoValueRange | orca_generate_plot_strings.py:149-153 | a two-value option `lo,hi` expands to the inclusive range from `lo` to `hi` |
| OrcaPlotStrings.ArgToListRoundTrip | orca_generate_plot_strings.py:83-90 | a non-empty list of numbers, each written with `str` and joined by commas, evaluates back to that list |
| OrcaPlotStrings.OrbitalNumbersOfList | orca_generate_plot_strings.py:148-155 | numbers written this way: two of them give the inclusive range between them, any other count gives the list itself |
| OrcaPlotStrings.LeadingZeroRejected | orca_generate_plot_strings.py:83-90 | `07` is read as 7 by `int()` but is a SyntaxError for Python 3's `eval` |
| OrcaPlotStrings.RangePadded | orca_generate_plot_strings.py:152-153 | the range has `hi - lo + 1` orbitals, the `k`-th is `lo + k` zero-padded, all to the common width |
| OrcaPlotStrings.MaxWithListFails | orca_generate_plot_strings.py:138-143 | as written, `--max` with a command-line `--canon` or `--uno` raises TypeError instead of filtering |
| OrcaPlotStrings.AtMostMeaning | orca_generate_plot_strings.py:141-143 | the filter keeps exactly the orbitals at or below the maximum, and all of them when none exceeds it |
| OrcaPlotStrings.AtMostConcat | orca_generate_plot_strings.py:141-143 | filtering a concatenation filters each part, so order is kept |
| OrcaPlotStrings.PlotPartsFixedMeaning | orca_generate_plot_strings.py:138-157 | with the filter applied to the parsed numbers, `--max` keeps exactly the natural orbitals at or below it; without `--max` the block is unchanged |
| QChemCdftTools.ParseCdftBlock | chemistry/qchem_cdft_tools.py:84-126 | the two loops (skip to `$cdft`, then read up to `$end`), the delete of the first group and the final append give `ParseSpec`: the error of the first failing step, or the values and groups |
| QChemCdftTools.Lex | chemistry/qchem_cdft_tools.py:96-98 | a line inside the block is the closing line exactly when it strips and lower-cases to `$end`; a line whose tokens are not all integers is a ValueError |
| QChemCdftTools.FindCdft | chemistry/qchem_cdft_tools.py:92-94 | the first `$cdft` line at or after a position, matched after stripping and lower-casing; no earlier line matches, and without one there is none |
| QChemCdftTools.BlockBody | chemistry/qchem_cdft_tools.py:96-124 | for a block made of plain lines then entries (a value line followed by plain lines) then `$end`, the result is one value per entry, in order, and the `k`-th group is the 3-token lines of the `k`-th entry; the lines before the first value are dropped and nothing after `$end` is read |
| QChemCdftTools.ParseWellFormed | chemistry/qchem_cdft_tools.py:92-126 | the same for a whole file: lines before the first `$cdft` are skipped, whatever they hold |
| QChemCdftTools.PlainRun | chemistry/qchem_cdft_tools.py:100-120 | lines of 0, 2 or 5 and more tokens change nothing; 3-token lines are appended to the open group, in order |
| QChemCdftTools.EntriesBody | chemistry/qchem_cdft_tools.py:103-113 | reading entries one after another is the entry-by-entry state update |
| QChemCdftTools.EntryHead | chemistry/qchem_cdft_tools.py:103-107 | a value line records its value and closes the open group; the plain lines after it form the new open group |
| QChemCdftTools.AfterEntriesMeaning | chemistry/qchem_cdft_tools.py:103-107 | after the entries every value is recorded in order, the group open before each value is closed, and the last entry's group is still open |
| QChemCdftTools.GroupsAt | chemistry/qchem_cdft_tools.py:103-113 | the `k`-th group is the 3-token lines of the `k`-th entry |
| QChemCdftTools.FinishEntries | chemistry/qchem_cdft_tools.py:123-124 | deleting the first closed group and appending the open one leaves exactly one group per value |
| QChemCdftTools.ParseLengths | chemistry/qchem_cdft_tools.py:123-159 | every successful parse returns as many groups as values, and at least one of each, as the caller asserts |
| QChemCdftTools.BodyKeepsCounts | chemistry/qchem_cdft_tools.py:103-107 | the reading loop keeps one closed group per recorded value |
| QChemCdftTools.BodyErrors | chemistry/qchem_cdft_tools.py:98-116 | a non-integer token in the block is a ValueError; a line of four integers reaches `.lower()` on an integer, an AttributeError |
| QChemCdftTools.NoValueFails | chemistry/qchem_cdft_tools.py:123 | a block without a value line makes `del all_constraints[0]` raise IndexError |
| QChemCdftTools.NoBlockFails | chemistry/qchem_cdft_tools.py:93-95 | without a `$cdft` line, or with `$cdft` as the last line, `next` raises StopIteration |
| QChemOptFromOpt.ParseUserInput | qchem_make_opt_input_from_opt.py:44-74 | the loop over the lines equals `ParseSpec`: skip to the first `User input:` line, assert `----` on the next, then read sections until the line of 62 dashes; running out of lines is StopIteration |
| QChemOptFromOpt.Lex | qchem_make_opt_input_from_opt.py:62-71 | a line is the closing rule exactly when it contains 62 dashes; otherwise blank when it strips to nothing, a header when it starts with `$` and is not `$end` (named by the lowercased text after `$`), an end when it strips and lowercases to `$end`, and a section line otherwise |
| QChemOptFromOpt.FindUserInput | qchem_make_opt_input_from_opt.py:56-58 | the index found is the first line containing `User input:`, or there is none |
| QChemOptFromOpt.ParseWellFormed | qchem_make_opt_input_from_opt.py:56-74 | after the first `User input:` line and a `----` line, sections with distinct names, blank lines anywhere, then the rule give each name with its lines joined by newlines, in the order read; nothing after the rule is read |
| QChemOptFromOpt.BodyWellFormed | qchem_make_opt_input_from_opt.py:62-72 | the same for the lines after the `----` line |
| QChemOptFromOpt.ParseNoDashes | qchem_make_opt_input_from_opt.py:59-60 | a line without `----` after the first `User input:` line raises AssertionError, whatever follows |
| QChemOptFromOpt.SectionRead | qchem_make_opt_input_from_opt.py:65-69 | a header, its lines and `$end` store the lines joined by `\n` under the header's name and leave that name open |
| QChemOptFromOpt.ContentRun | qchem_make_opt_input_from_opt.py:70-71 | lines read in an open section are appended to its list in order |
| QChemOptFromOpt.SectionsRead | qchem_make_opt_input_from_opt.py:62-72 | sections are read one after the other |
| QChemOptFromOpt.AfterSecsAppends | qchem_make_opt_input_from_opt.py:66-69 | sections with new, distinct names are appended to the dictionary in reading order |
| QChemOptFromOpt.BlanksDropped | qchem_make_opt_input_from_opt.py:63-64 | blank lines change nothing: the parse is the same with them removed |
| QChemOptFromOpt.StopsAtRule | qchem_make_opt_input_from_opt.py:62 | nothing after the first rule line is read |
| QChemOptFromOpt.NoHeaderFails | qchem_make_opt_input_from_opt.py:68-71 | a section line or `$end` before any header (blank lines aside) raises UnboundLocalError |
| QChemOptFromOpt.StepOpen | qchem_make_opt_input_from_opt.py:66-71 | every step keeps the open section in the dictionary and never raises KeyError |
| QChemOptFromOpt.NeverKeyError | qchem_make_opt_input_from_opt.py:62-72 | the dictionary lookups of the loop never raise KeyError |
| QChemOptFromOpt.HeaderResets | qchem_make_opt_input_from_opt.py:65-67 | a header binds its name and resets its section to an empty list; a name seen before keeps its place, a new one goes last, other sections are untouched |
| QChemOptFromOpt.NumStrOf | qchem_make_opt_input_from_opt.py:98-99 | for a name `p` + `opt` + digits + `.out` the regular-expression group is those digits, and the documented next name is `p` + `opt` + the next number + `.in` |
| QChemOptFromOpt.BareOpt | qchem_make_opt_input_from_opt.py:99-101 | a bare `opt` is followed by optimization 2 and the name `p` + `opt2.in` |
| QChemOptFromOpt.NumberedOpt | qchem_make_opt_input_from_opt.py:99-104 | `optN` is followed by optimization N + 1 and the name `p` + `opt` + (N + 1) + `.in` |
| QChemOptFromOpt.AsWrittenAgrees | qchem_make_opt_input_from_opt.py:98-104 | for a name whose only `opt` and only `.out` are the final ones, the script's `re.sub` and `replace` give exactly the documented next name |
| QChemOptFromOpt.AsWrittenRenamesEveryOpt | qchem_make_opt_input_from_opt.py:104 | `opt` + `q` + `opt.out` is renamed `opt2` + `q` + `opt2.in`, not the documented `opt` + `q` + `opt2.in` |
| SubmitDalton.DetermineParallelism | frank/submit-dalton.py:15-35 | the choice is always made (the final error branch is unreachable), is `mpi` or `omp`, and is `mpi` exactly when the `--mpi` flag is set, whatever `--omp` says |
| SubmitDalton.ParFlag | frank/submit-dalton.py:53-60 | `mpi` gives `-N` and the MPI module, `omp` gives `-nt` and the OpenMP module (the module named after the implementation), and any other value raises RuntimeError |
| SubmitDalton.ChosenBuildAccepted | frank/submit-dalton.py:25-32 | the implementation the flags choose is always one the template accepts, with `-N` exactly when `--mpi` is given |
| SubmitDalton.CopyStrings | frank/submit-dalton.py:45-48 | one copy line per extra file, the k-th copying the k-th file |
| SubmitDalton.JoinedExtrafiles | frank/submit-dalton.py:42-51 | `None` gives the empty text, and a value that is not a list gives what a one-element list would |
| SubmitDalton.TerminatedJoin | frank/submit-dalton.py:49 | joining newline-terminated copy lines with `''` is joining the lines with newlines, plus an empty last piece |
| SubmitDalton.ExtraFilesLines | frank/submit-dalton.py:42-49 | for a list of names, the text splits on newlines into exactly one `cp $PBS_O_WORKDIR/<name> $LOCAL` line per file, in order, and nothing after the last |
| SubmitDalton.TemplatePbsfile | frank/submit-dalton.py:38-92 | the template fails with RuntimeError exactly when `parimpl` is neither `mpi` nor `omp`, runs with `-N` exactly for `mpi`, and fills in the input name, the core count and the extra-files text |
| SubmitDalton.SubmitSucceeds | frank/submit-dalton.py:120-132 | for every pair of flags the script produces a job file, named after the input without its extension plus `.pbs`, that runs with `-N` exactly when `--mpi` is given |
| FixMolden.RunErrSticks | fix_molden.py:60-79 | once the loop has raised, the remaining lines do not change the outcome |
| FixMolden.GetMoldenFileSections | fix_molden.py:49-81 | the loop returns what the line-by-line definition `SectionsOf` gives, including its exceptions |
| FixMolden.LastHeaderFacts | fix_molden.py:68-73 | the last header position is a header with no header after it, and without one there is no header |
| FixMolden.LastNamedFacts | fix_molden.py:68-70 | the last header with a given name has that name and no later header has it |
| FixMolden.NextHeaderFacts | fix_molden.py:71-79 | the next header after a position is a header (or the end) with no header in between |
| FixMolden.HeaderStep | fix_molden.py:68-70 | a header line opens its section empty, resetting an earlier section of the same name, is not stored itself, and leaves the other sections alone |
| FixMolden.ContentOpen | fix_molden.py:74-79 | a line that is not a header, empty or not, is appended to the section opened last |
| FixMolden.ContentOther | fix_molden.py:74-79 | such a line leaves every other section unchanged |
| FixMolden.ContentStep | fix_molden.py:74-79 | with a section open, a non-header line never raises, and the state keeps matching the reference |
| FixMolden.RunMeaning | fix_molden.py:60-79 | the loop raises, with UnboundLocalError, exactly when the first line is not a header; otherwise each name maps to the lines between its last header and the next header, in order, empty lines included |
| FixMolden.SectionsMeaning | fix_molden.py:49-81 | the same statement for the dictionary `get_molden_file_sections` returns |
| FixMolden.Singles | fix_molden.py:25 | `tuple(s)` is the one-character strings of `s`, in order |
| FixMolden.SinglesMembers | fix_molden.py:25 | a string is in `tuple(s)` exactly when it is one character long and that character occurs in `s` |
| FixMolden.SectionEnd | fix_molden.py:112-120 | the terminator is empty exactly for the five basis-function headers and the single characters of `[Molden Format]`, and a newline otherwise |
| FixMolden.MoldenFormatGetsNewline | fix_molden.py:25 | `[Molden Format]` itself is terminated with a newline, while its character `[` is not |
| FixMolden.IntendedSectionEnd | fix_molden.py:112-120 | with `[Molden Format]` as one header, the terminator is empty exactly for the basis-function headers and `[Molden Format]` |
| FixMolden.IntendedDiffers | fix_molden.py:25 | the two terminators differ on `[Molden Format]` and agree on every header that is neither it nor a single character of it |
| FixMolden.CleanupsAreIdentities | fix_molden.py:102-109 | `cleanup_section_gto` and `cleanup_section_mo` return their section unchanged |
| GamessBasisRename.InvertLastWins | chemistry/gamess_basis_rename.py:8-13 | a lowercased value maps back to the key of its last pair: when two names lowercase alike, the later symbol wins |
| GamessBasisRename.InvertAbsent | chemistry/gamess_basis_rename.py:13 | a name that no value lowercases to is not a key of the inverse |
| GamessBasisRename.InvertDistinct | chemistry/gamess_basis_rename.py:13 | the inverse has distinct keys |
| GamessBasisRename.RenameElements | chemistry/gamess_basis_rename.py:16-27 | the nested loops produce one renamed line per input line, in order, joined with `''`, each line rewritten by the keys in the dictionary's order |
| GamessBasisRename.RenameUnmatched | chemistry/gamess_basis_rename.py:23-26 | a line in which no key occurs, compared in lower case, is kept exactly, not even lowercased |
| GamessBasisRename.RenameSnoc | chemistry/gamess_basis_rename.py:23-25 | the keys are applied in order, each to the line the earlier keys left |
| GamessBasisRename.MatchLowercases | chemistry/gamess_basis_rename.py:24-25 | a matched line is lowercased: with a lower-case value nothing upper-case is left |
| GamessBasisRename.KeyLineRenamed | chemistry/gamess_basis_rename.py:24-25 | a line that is a key, in any case, becomes that key's value |
| GamessBasisRename.ShorterKeyCapturesLonger | chemistry/gamess_basis_rename.py:23-25 | a key occurring inside a later key (`tin` inside `platinum`) rewrites a line holding the longer name first, after which the longer key no longer applies |
| OrcaSignificantMos.AppendEntryMeaning | orca_significant_mos.py:31-34 | the entry ends its MO's list, which is created when absent; the entries already there are kept, no other MO changes, a new MO is added last and the keys stay distinct |
| OrcaSignificantMos.Floats | orca_significant_mos.py:27 | `map(float, ...)` succeeds exactly when every token is a number, giving one value per token in order |
| OrcaSignificantMos.AddEntriesMeaning | orca_significant_mos.py:28-34 | appending a run of entries from MO `first` on gives MO `first + k` its k-th entry after what it held, and leaves every other MO alone |
| OrcaSignificantMos.ParseLineFails | orca_significant_mos.py:23-27 | a line raises exactly when it has fewer than three tokens, a non-integer first token or a non-numeric contribution (IndexError or ValueError), and otherwise updates the dictionary from its fields |
| OrcaSignificantMos.LineUpdateMeaning | orca_significant_mos.py:27-34 | with n contributions the k-th goes to MO `max_mo_index - n + k`, appended to that MO's list; other MOs are unchanged and keys stay distinct |
| OrcaSignificantMos.OrbitalTable.ParseLine | orca_significant_mos.py:21-34 | the dictionary is updated in place as the line's update says, or left as it was when the line raises |
| OrcaSignificantMos.OrbitalTable.AddLineEntries | orca_significant_mos.py:28-34 | the loop appends the line's entries in order, creating missing lists |
| OrcaSignificantMos.KeptMembers | orca_significant_mos.py:79-80 | the kept contributions are exactly those reaching the threshold |
| OrcaSignificantMos.KeptConcat | orca_significant_mos.py:79-80 | filtering commutes with concatenation, so the kept contributions keep their order |
| OrcaSignificantMos.KeptAll | orca_significant_mos.py:79-80 | a list whose contributions all reach the threshold is kept whole |
| OrcaSignificantMos.AddKeptMeaning | orca_significant_mos.py:79-84 | the inner loop appends the kept contributions under the MO and touches nothing else; with none kept the MO stays as it was, absent included |
| OrcaSignificantMos.FilterMeaning | orca_significant_mos.py:74-85 | the result holds exactly the MOs at most `max_orbital` with a contribution reaching the threshold, each with those contributions in order, and has distinct keys |
| OrcaSignificantMos.FilterNoEmptyLists | orca_significant_mos.py:79-84 | no MO of the result holds an empty list |
| OrcaSignificantMos.OrbitalTable.WithinThreshold | orca_significant_mos.py:74-85 | the nested loops build the filter above into a new dictionary; the method may modify nothing, so the parsed dictionary is unchanged |
| OrcaSignificantMos.PyIndex | orca_significant_mos.py:99-100 | Python list indexing succeeds exactly for indices in `[-len, len)` and raises IndexError otherwise |
| OrcaSignificantMos.BetaEnergyOfMo | orca_significant_mos.py:97-100 | with the alpha energies followed by as many beta energies, MO k is printed with `energies[k]` and `energies[k + nmo]`, its beta energy |
| OrcaSignificantMos.NoBetaRepeatsAlpha | orca_significant_mos.py:98-100 | without beta orbitals the second lookup is the alpha energy again |
| OrcaSignificantMos.MissingBetaEnergies | orca_significant_mos.py:98-100 | with beta orbitals but only `nmo` energies read, the beta lookup raises IndexError |

## Left out

- Reading and writing files, printing, command-line parsing and `sys.exit` are left out; inputs arrive as values and outputs are returned.
- Filesystem listing in osmium/lstree.rb is a recursive datatype. The order of `Dir[]` and the exclusion of dotfiles are not modelled.
- `str.lower()` covers ASCII letters only. `int()` accepts surrounding ASCII whitespace, a sign and ASCII digits; underscores and other Unicode digits are not modelled.
- Calls to `git`, `subprocess`, cclib, numpy and pandas are parameters or left out. `git show` is a map from hash to commit subject, and a missing hash stands for a failed call.
- QChemCovpAnalysis.DetermineFragmentIndices: idx_homo is taken as a natural number from the caller (cclib's `homos[0]`), and the fragment entries are objects that are never aliased between the two lists.
- FindCO2Frequencies.FindAllInstances: requires a non-empty needle; with an empty one `find` returns 0 on every suffix, the empty one included, and the source loop never ends.
- OrcaMakeRelInputs.UpdateFromPerKey: `update` is modelled on values. The in-place mutation of `d` and of the nested dicts it shares with the caller are not modelled; the result is what `d` holds afterwards.
- `collections.Mapping` is the `Mapping` case of the value datatype; everything else is a leaf.
- The `main` functions, argparse handling and job-file templates of the orca, Q-Chem and cluster scripts are not modelled.
- Floating-point energies in qchem_covp_analysis.py are `real`.
- QChemExcitedStateInputs.Options.DictKeysPrivateToPublic: stops with RuntimeError right after renaming the first `_` key. CPython's dictionary iterator may first visit later keys, renaming further `_` keys or raising IndexError on a later empty key; the model does not state the options after that exception.
- QChemExcitedStateInputs: option values are strings, booleans and integers; floats and other types are not modelled.
- OrcaMakeEprInputs: `args` and `inpfile_params` are separate parameters (`no_ri`, `ri_handle_exx`, functional, ri_type, basis); the templates and file names of `main_dft` and `main_wfn` are not modelled.
- ParseDiffFile: the diff is given as its lines, each without the line terminator, with the directory and the base name of the diff file; the files are returned as (path, content) pairs rather than written. The closing `print` is left out.
- Compare: a path is the sequence of its `parts`; `Path(*parts)` is taken to have those parts again. Directory walking, digests and the coloured listing are not modelled.
- Xyz2Dalton: cclib's periodic table is a map from symbol to atomic number given as a parameter; the charge in a header, a Python float, is rendered as the atomic number followed by `.0`; the file reading of `xyz2dalton_from_xyz` and `main` are left out.
- QChemFreqFromOpt: a `$rem` value is the text read from the output or an integer written back; `deepcopy` is a value copy. `parse_rem_section`, the cclib geometry and the file naming of `main` are not modelled.
- SubmitQChemBatch: the SLURM template, the `module` line, `os.environ['USER']` and the file write of `main` are not modelled; `main` is stated up to the values it puts into the job file.
- PbsJobMaker: the dictionary is a Dafny `map`; the `__main__` part, which reads a job list and calls `qsub` through `os.system`, is not modelled.
- OrcaPlotStrings: the cclib path of `generate_block` (`--cclib`, `--cclib_all`) and docopt are not modelled; options are docopt's text or `None`, and `--print_args` printing is left out. The padded orbital text is used both in the file name and as the orbital argument (`mo("p.mo.01a.cube", 01, 0);`), which the code does although the usage text shows `1` as the argument.
- OrcaPlotStrings.ArgToList: `eval` is modelled for bare comma-separated integer literals only, with an optional sign and a trailing comma allowed; a nonzero literal with a leading zero (`07`) is a SyntaxError as in Python 3 (Python 2 would read it as octal, `010` as 8); any other text is a SyntaxError, whereas Python may evaluate it (a parenthesised tuple, `1_000`, `- 7`) or raise NameError.
- OrcaPlotStrings.MaxStep: Python 3 semantics: comparing the text's first character with an `int` raises TypeError; Python 2 would instead drop every item.
- QChemCdftTools: `extract_cdft_becke_populations`, the test function and the printing `__main__` loop (cclib, numpy, printing) are not modelled; the file is given as its lines (`splitlines`). A spin constraint line such as `1 1 3 s` has the non-integer token `s`, so it raises ValueError before the spin branch; the model keeps that behaviour.
- FixMolden: `main` (re-ordering the sections, renaming `[Atoms]`, printing) and `cleanup_section_atoms` (a floating-point unit conversion) are not modelled, nor is reading the file; the loop is given the file's lines (`splitlines`). Python raises UnboundLocalError, a kind of NameError, for the unset `k`.
- SubmitDalton: argument parsing, reading `USER` from the environment (a parameter here), writing the job file and printing its name are not modelled; the job text is `Render` of the filled-in values, and no property is stated about its fixed text.
- GamessBasisRename: the `Name` table is not a constant of the model, and reading the basis file and printing the result are left out. The main block inverts `s2n`, a name the script never defines, so as written it stops with NameError before renaming anything; the model states `rename_elements` for any table.
- OrcaSignificantMos: `parse_block`, `parse_section`, `main` (cclib, docopt, reading the output file) and the text formatting of `pretty_print_orbitals` are not modelled; energies and contributions are `real`, and `float()` of a token is a parameter of the model (`None` for a text Python rejects).
- OrcaSignificantMos.OrbitalTable.WithinThreshold: the script is Python 2, whose dictionaries iterate in an unspecified order; the model iterates in insertion order. It walks the (MO, list) pairs, which for a dictionary's distinct keys is the lookup `orbitals[mo_index]`.
- QChemOptFromOpt: reading the geometry with cclib, forming the `$molecule` section and writing and printing the new input file are not modelled; the file is given as its lines (`splitlines`). `int()` and `\d` are taken to accept ASCII digits only.

## Findings

| source | as written | input that shows it | evidently intended | confidence | as-written member | corrected member |
|---|---|---|---|---|---|---|
| find_CO2_frequencies.py:62-64 | checks the relative `index` against the absolute positions already listed | haystack `[0, 0]`, needle `[0]`: the second search finds relative index 0, already listed, so position 1 is dropped | every occurrence is reported | not executed | FindCO2Frequencies.FindAllInstancesSkipsOccurrence | FindCO2Frequencies.FindAllOccurrences |
| blacklight/blacklight.py:16 | starts the best score at 999 and keeps 999 as the size when no score is lower | an empty list with min = max = 1000 scores 1000, so 999 is returned, outside [min, max] | the result lies in [min, max] whenever min <= max | not executed | Blacklight.SentinelEscapesRange | Blacklight.OptimalGroupSizeFixed |
| chemistry/orca_make_epr_inputs.py:252-258 | the loop over the functionals has no `break`, so its `else` always returns `''` and the pure/hybrid defaults after it are unreachable | ri_type empty, functional `pbe`, basis `def2-tzvp`: the auxiliary basis is `''` | a pure functional gets the family with `/j`, a hybrid one with `/jk`, as the docstring says | not executed | OrcaMakeEprInputs.AuxBasisIgnoresFunctional | OrcaMakeEprInputs.AuxBasisFixed |
| parse_diff_file.py:118-120 | takes the right start line from `hunk_info.split(" ")[1]`, where `hunk_info` is already the first piece of a split on spaces | `@@ -1,3 +1,4 @@` raises IndexError, as does every `@@` line | the right start line is `c` of `+c,d`, the second piece of `line[3:].split(" ")` | not executed | ParseDiffFile.HunkStartsAsWrittenFail | ParseDiffFile.HunkStartsFixedParses |
| orca_generate_plot_strings.py:138-143 | filters `args['--canon']` and `args['--uno']` with `i <= maxorb` while, without cclib, they are still the command-line text | `--canon=1,5 --max=3`: the first comparison is `'1' <= 3`, a TypeError | `--max` keeps the orbitals numbered at most `maxorb` | not executed | OrcaPlotStrings.MaxWithListFails | OrcaPlotStrings.PlotPartsFixedMeaning |
| qchem_make_opt_input_from_opt.py:104 | `re.sub(r'opt\d*', ...)` rewrites every `opt` in the name, and `.replace('.out', '.in')` every `.out`, not only the final ones | `optimize_opt.out` becomes `opt2imize_opt2.in` | only the final `opt` number is advanced, giving `optimize_opt2.in`, as the module documentation says | not executed | QChemOptFromOpt.AsWrittenRenamesEveryOpt | QChemOptFromOpt.NumberedOpt |
| fix_molden.py:25 | `tuple('[Molden Format]')` makes the tuple of the header's characters, not a one-element tuple | the header `[Molden Format]` gets `\n` from `section_end`, so a blank line is printed after it | `('[Molden Format]',)`, so that `[Molden Format]` is printed with no terminator, as the name `section_headers_no_newline` says | not executed | FixMolden.MoldenFormatGetsNewline | FixMolden.IntendedSectionEnd |
