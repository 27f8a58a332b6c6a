# RODRIGO.FLOW sales coach: a verified model of its core

The application is a Streamlit page with two tabs.

- **Seller tab.** A seller describes a customer's objection. A language model answers with a reply in a fixed labelled layout. The application parses that reply into four fields: behavioural archetype, reaction, strategy and tip. It keeps them as a draft in the session, and one of two confirm buttons ("applied" / "not applied") turns the draft into a stored interaction document.
- **Manager tab.** The stored documents are filtered to a range of days and summarised: archetype counts, the share of applied strategies, a row per named seller, an alert table of non-ideal archetypes per seller, and the five most frequent objection texts.

The model has six modules:

- `Wrappers` (`wrappers.dfy`): `Option`.
- `Interactions` (`interactions.dfy`): the stored document (`Interaction`), its timestamp, and the fixed strings the application compares against: `"Não identificado"`, `"Não informado"`, `"Sim"`, `"Não"`, `"O Guerreiro"`, `"Não definido"`.
- `Text` (`text.dfy`): the Python string operations the parser uses, written out.
  - `str.split`, and `str.join` as its inverse in the round-trip lemmas.
  - `str.startswith`.
  - `str.replace(label, "")`, which removes every non-overlapping occurrence from left to right.
  - `str.strip`, over Python's `isspace` set of characters, listed explicitly.
- `ResponseParser` (`parser.dfy`): the parsing loop. It is a method with a `for` loop over the lines that updates four variables, proved equal to a left fold `ParseLines` of the one-line step `Step`. The properties of the parser are lemmas about the fold.
- `Session` (`session.dfy`): the seller's screen. It is a class whose `state` field is the string part of `st.session_state` and whose `stored` field lists the documents this session added to the collection.
  - `Analyze` writes the seven draft keys.
  - `Confirm` builds the document (the body of `salvar_interacao`) and deletes the keys.
  - `DeleteDraft` is the deletion loop over the key list.
- `Dashboard` (`dashboard.dfy`): the manager's aggregations. They are functions over the sequence of documents. pandas `value_counts` and `groupby(...).size()` are modelled as multisets and counts. Percentages are exact `real` quotients. The tie-break of `mode()[0]` uses a code-point order on strings, `LexLeq`, which `Text` defines together with its order lemmas.

Four behaviours of the code that are easy to misread are stated by the model as the code has them:

- **Repeated label.** Every line that begins with a label overwrites that field, so the last such line determines it.
- **Empty name.** The analysis always writes the name key, so an empty name field is stored as `""`, not as `"Não informado"`. The `get` default in the confirm buttons applies only when the key is missing.
- **No "Sim".** When no document in the period says `"Sim"`, the code shows a message instead of a percentage (`ApplicationRate` returns `None`), not a rate of zero.
- **Dominant archetype.** `mode()[0]` is the least of the most frequent archetypes in pandas' sorted order, i.e. by code point, not the first of them to occur.

## Model

| member | source | states |
|---|---|---|
| Text.Split | app.py:172 | every piece of `split('\n')` is free of the separator, and there is at least one piece |
| Text.StartsWith | app.py:173 | `line.startswith(label)`: the label is a prefix of the line |
| Text.JoinSplit | app.py:172 | joining the pieces of a split with the separator restores the original reply |
| Text.SplitJoin | app.py:172 | splitting a join of separator-free pieces gives back exactly those pieces |
| Text.RemoveAll | app.py:174 | `replace(label, "")` never lengthens the line |
| Text.RemoveAllAbsent | app.py:174 | a line in which the label does not occur is left unchanged by the removal |
| Text.RemoveAllLeading | app.py:174 | a leading occurrence of the label is removed and the scan resumes after it |
| Text.RemoveAllBothEnds | app.py:174 | a copy of the label at each end of the line is removed, when no copy starts in between |
| Text.RemoveAllTrailing | app.py:174 | a copy of the label at the end of the line is removed as well, when no copy starts earlier: `replace` removes every copy |
| Text.OccursAfter | app.py:174 | the label cannot occur at a position before the first occurrence of its first character |
| Text.ShortNeverOccurs | app.py:174 | a text shorter than the label cannot contain it |
| Text.StripLeft | app.py:174 | `lstrip` result is no longer than its input and does not begin with whitespace |
| Text.StripRight | app.py:174 | `rstrip` result is no longer than its input and does not end with whitespace |
| Text.StripLeftShape | app.py:174 | the left strip is the suffix of the input that follows a run of whitespace |
| Text.StripRightShape | app.py:174 | the right strip is the prefix of the input that precedes a run of whitespace |
| Text.Strip | app.py:174 | `strip()` yields a text no longer than its input, empty or with non-whitespace at both ends |
| Text.StripIsSlice | app.py:174 | `strip()` is a contiguous slice of the input with only whitespace before and after it |
| Text.StripOfPadded | app.py:174 | whitespace around a text with non-whitespace ends is exactly what `strip()` removes |
| Text.StripLeftOfPadded | app.py:174 | leading whitespace before a text that does not start with whitespace is removed exactly |
| Text.StripRightOfPadded | app.py:174 | trailing whitespace after a text that does not end with whitespace is removed exactly |
| Text.StripIdempotent | app.py:174 | stripping a stripped text changes nothing |
| Text.LexLeqTotal | app.py:297 | the code-point order used for mode ties compares any two strings |
| Text.LexLeqTransitive | app.py:297 | the code-point order is transitive |
| Text.LexLeqAntisymmetric | app.py:297 | two strings ordered both ways are equal |
| ResponseParser.Lines | app.py:172 | `ia_response.split('\n')`: at least one line, no line contains a newline, and joining the lines with newlines gives back the reply |
| ResponseParser.ParseResponse | app.py:167-180 | the loop over the lines of the reply ends with the four variables equal to the fold of the line step over `split('\n')`, starting from four sentinels |
| ResponseParser.Step | app.py:173-180 | one pass of the loop body: the first label of the if/elif chain that the line starts with sets its field to the extracted value, and a line with no label changes nothing |
| ResponseParser.Extract | app.py:174 | the value taken from a labelled line: every copy of the label removed, then `strip()` |
| ResponseParser.ParseLines | app.py:167-180 | the four variables after the loop has visited a prefix of the lines, starting from four "Não identificado" sentinels |
| ResponseParser.FieldValue | app.py:167-180 | reference definition of one field: the extraction from the last line carrying its label, or the sentinel |
| ResponseParser.Set | app.py:174-180 | an assignment in the if/elif chain changes its own field and no other |
| ResponseParser.LabelOf | app.py:173-179 | the chain picks a label the line starts with, and picks none only when the line starts with no label |
| ResponseParser.LabelsExclusive | app.py:173-179 | no line starts with two different labels, so the order of the elif tests does not matter |
| ResponseParser.StepChangesOnlyItsField | app.py:173-180 | one line sets the field whose label it starts with to the extracted value, and leaves every other field as it was |
| ResponseParser.ParseLinesField | app.py:172-180 | each field after the loop is the extraction from the last line that starts with its label, or the sentinel |
| ResponseParser.UnmatchedFieldKeepsSentinel | app.py:167-180 | a field whose label begins no line stays "Não identificado" |
| ResponseParser.FieldValueUnmatched | app.py:167-180 | the reference definition gives the sentinel for a label that begins no line |
| ResponseParser.LastMatchWins | app.py:172-180 | when several lines carry a label, the last of them determines the field |
| ResponseParser.FieldValueLastMatch | app.py:172-180 | the reference definition takes the last line carrying the label |
| ResponseParser.FieldComesFromALine | app.py:167-180 | every field is the sentinel or the extraction from some line that starts with its label |
| ResponseParser.FieldValueFromALine | app.py:167-180 | the reference definition is the sentinel or comes from a labelled line |
| ResponseParser.IndentedLineChangesNothing | app.py:173-179 | a line that begins with whitespace, even before a label, changes no field |
| ResponseParser.ExtractLabelledLine | app.py:173-180 | a labelled line whose text carries no second copy of the label yields that text without its surrounding whitespace |
| ResponseParser.ExtractRepeatedLabel | app.py:174 | a line that carries the label at both ends yields the text between the two copies, stripped, because every copy is removed |
| ResponseParser.ProfileOfRepeatedLabel | app.py:174 | the archetype line "…Perfil Detectado:** O Medroso …Perfil Detectado:**" yields "O Medroso" |
| ResponseParser.SampleReplyProfile | app.py:172-174 | a reply in the prompted layout naming "O Medroso" is parsed to the archetype "O Medroso" |
| ResponseParser.SampleReplyLabels | app.py:173 | in the prompted layout the second line, and none of the other four (header included), starts with the archetype label |
| ResponseParser.ProfileOfSample | app.py:174 | the archetype line "…Perfil Detectado:** O Medroso" yields "O Medroso" |
| Session.DraftKeysDistinct | app.py:206-207 | the seven keys of the deletion list are different, and they are exactly the keys an analysis writes |
| Session.Flag | app.py:196-222 | the first button records "Sim" and the second "Não", and nothing else |
| Session.GetOr | app.py:204 | `st.session_state.get(key, default)`: the stored value when the key is present, the default otherwise |
| Session.Draft | app.py:163-185 | the seven entries an analysis writes: reply, description, name field's text and the four parsed values |
| Session.DraftEntries | app.py:163-185 | the draft holds the reply, the description, the name field's text and each of the four parsed values under its own key |
| Session.SellerSession.constructor | app.py:190 | a new session holds no draft and has stored nothing |
| Session.SellerSession.HasDraft | app.py:190 | the confirm buttons are shown exactly while the reply key is in the session |
| Session.SellerSession.Valid | app.py:163-227 | the seven draft keys are present together or not at all, which every analysis and confirmation preserves |
| Session.SellerSession.Analyze | app.py:163-188 | an empty description only warns; otherwise the seven draft keys are written (reply, description, name, four parsed fields) over the old session map, nothing is stored, and the draft keys stay all-or-none |
| Session.SellerSession.Confirm | app.py:190-227 | without a draft nothing happens; with one, the document (the record `salvar_interacao` writes) carries the draft's description, four fields, the button's flag, the name (or "Não informado" when the key is missing) and the given time; it is appended to the store exactly when the write succeeds; all seven draft keys are gone afterwards in both cases |
| Session.SellerSession.DeleteDraft | app.py:206-209 | the loop removes exactly the seven draft keys from the session map (the same loop serves both buttons) |
| Session.SampleFlow | app.py:163-227 | analysing with an empty name field and pressing "not applied" stores a document with "Não", the empty name and the parsed archetype |
| Dashboard.CountBounds | app.py:268 | a count is at most the number of records, and zero exactly when the value is absent |
| Dashboard.Count | app.py:268 | the number of elements of a column equal to a value, which `value_counts` reports |
| Dashboard.CountIsMultiplicity | app.py:268 | a count equals the multiplicity of the value in the column's multiset |
| Dashboard.CountTwoValues | app.py:295-296 | counts of two different values add up to at most the number of records |
| Dashboard.CountAll | app.py:279 | a value's count is the whole length exactly when every element is that value |
| Dashboard.ValueCounts | app.py:268-277 | `value_counts()` gives each value its number of occurrences, and the counts add up to the number of records |
| Dashboard.Filter | app.py:253-256 | a boolean mask keeps exactly the elements that satisfy it |
| Dashboard.FilterIsSubsequence | app.py:253-256 | a mask keeps the elements in their stored order |
| Dashboard.FilterAppend | app.py:253-256 | masking a concatenation is the concatenation of the masked parts |
| Dashboard.FilterMultiplicity | app.py:253-256 | a kept element is kept as often as it occurs; an element that fails the mask disappears |
| Dashboard.FilterAbsorbs | app.py:290-293 | grouping the named records by a name is the same as grouping all records by that name |
| Dashboard.FilterFilter | app.py:290-305 | the name mask followed by the archetype mask is one mask by their conjunction |
| Dashboard.FilterEmpty | app.py:258 | a masked table is empty exactly when no record passes the mask |
| Dashboard.FilterAll | app.py:293 | a mask that every record passes keeps the table unchanged |
| Dashboard.Project | app.py:268 | a column has one entry per record, the record's field |
| Dashboard.GroupSize | app.py:294 | the size of a group is the count of its key in the key column |
| Dashboard.CountAfterFilter | app.py:290-305 | a mask that keeps or drops every record with a column value keeps or drops exactly that value's count |
| Dashboard.FilteredCountBound | app.py:305 | masking never increases a value's count |
| Dashboard.FilterByDate | app.py:253-256 | the period filter keeps exactly the records whose day lies between start and end, both included |
| Dashboard.InRange | app.py:254-255 | a record is in the period when its calendar day is at least the start and at most the end |
| Dashboard.FilterByDateExact | app.py:253-256 | each record in range is kept as often as it is stored, the others are dropped, and the stored order is kept |
| Dashboard.FilterByDateAppend | app.py:253-256 | filtering two batches of records apart and concatenating equals filtering the whole |
| Dashboard.ProfileCounts | app.py:268 | per archetype, the number of records in the period that carry it, with counts adding up to the period's size |
| Dashboard.AppliedCounts | app.py:276-277 | per applied flag, the number of records with it, adding up to the total |
| Dashboard.ApplicationRate | app.py:276-283 | a percentage is shown exactly when some record says "Sim"; it is count("Sim") / total × 100, lies in (0, 100], and is 100 exactly when every record says "Sim" |
| Dashboard.Percent | app.py:279 | `part / total * 100` lies in [0, 100] for a part of the total, is 0 exactly for a zero part and 100 exactly for the whole |
| Dashboard.InColumn | app.py:278 | a value is in a column exactly when some record has it |
| Dashboard.BestOf | app.py:297 | the pick is a candidate that beats every candidate: higher count, or equal count and not greater by code point |
| Dashboard.Mode | app.py:297 | the dominant archetype occurs in the group, no archetype occurs more often, it is the least by code point among equally frequent ones, and "Não definido" is used when the group has no values |
| Dashboard.RowOf | app.py:293-299 | a seller's row has the group size as total, the counts of "Sim" and "Não" (together at most the total), the percentage applied/total × 100 in [0, 100], and a most frequent archetype of the group, the least by code point among equally frequent ones ("Não definido" for no values) |
| Dashboard.SellerRollup | app.py:290-299 | there is one row per stored name other than "Não informado" (the empty name included), computed from exactly that seller's records, with a positive total equal to the name's count |
| Dashboard.IsNamed | app.py:290 | a record takes part in the per-seller views when its name is not "Não informado" |
| Dashboard.NamedRecords | app.py:290 | `dados_com_nome`: no more records than the period, and exactly the records whose name is not "Não informado" |
| Dashboard.RecordsOf | app.py:293 | one group of `groupby('nome_vendedor')`: exactly the records carrying that name |
| Dashboard.SellerNames | app.py:293-294 | the grouped key column: one name per named record, in stored order, each the record's name and never "Não informado" |
| Dashboard.SellerGroup | app.py:290-294 | a listed seller's group is the same whether taken from the named records or from all records, and it is not empty |
| Dashboard.NameListed | app.py:290-293 | a name is grouped exactly when it is stored and is not "Não informado" |
| Dashboard.ListedNameIsStored | app.py:290 | a name among the named records belongs to some stored record and is not "Não informado" |
| Dashboard.StoredNameIsListed | app.py:290 | a stored name other than "Não informado" is among the named records |
| Dashboard.SellerTotalsSum | app.py:293-294 | the seller totals are the multiset of names of the named records, so they add up to the number of named records |
| Dashboard.AlertTable | app.py:305 | the cell of a seller and an archetype is the number of records with both, zero for "O Guerreiro" and for "Não informado", and the cells add up to the number of named non-ideal records |
| Dashboard.AlertRecordsAre | app.py:305 | the alert records are the records that are named and non-ideal |
| Dashboard.AlertTotals | app.py:309 | a seller's row sum is the number of that seller's records with an archetype other than "O Guerreiro" (zero for "Não informado"); the sums add up to the number of alert records, each is at most the seller's total, and a seller without a row has none |
| Dashboard.AlertRowIs | app.py:305-309 | a seller's alert row sum counts exactly that seller's non-ideal records |
| Dashboard.AlertCellBound | app.py:305-309 | no cell of the alert table exceeds its row sum |
| Dashboard.PairCountBound | app.py:305-309 | a (seller, archetype) pair occurs no more often than its seller |
| Dashboard.AlertRecords | app.py:305 | the rows that enter the alert grouping: exactly the records that are named and whose archetype is not "O Guerreiro", no more than the named records |
| Dashboard.IsAlert | app.py:305 | a record enters the alert table when its archetype is not "O Guerreiro" |
| Dashboard.AlertRowBound | app.py:305-309 | a seller's alert row sum is at most the seller's number of named records |
| Dashboard.Distinct | app.py:321 | the distinct objection texts, each once, exactly the texts that occur |
| Dashboard.ArgMax | app.py:321 | the next text picked for `value_counts().head(5)` is a position among the remaining candidates; that it has the largest count is `ArgMaxIsMax` |
| Dashboard.ArgMaxIsMax | app.py:321 | no candidate occurs more often than the one picked next |
| Dashboard.RemoveAtMembers | app.py:321 | after a pick, the remaining candidates are the others |
| Dashboard.RemoveAtDistinct | app.py:321 | a picked text is not picked again |
| Dashboard.SelectTop | app.py:321 | `head(k)` has min(k, number of candidates) rows |
| Dashboard.SelectTopRows | app.py:321 | each row is a candidate with its own count |
| Dashboard.SelectTopOrdered | app.py:321 | no text is listed twice and the counts never increase down the list |
| Dashboard.SelectTopDominates | app.py:321 | a text left out of the list occurs no more often than any listed one |
| Dashboard.TopObjections | app.py:321 | `value_counts().head(5)` lists min(5, number of distinct texts) rows; each row is a text of the period with its count; the counts do not increase and no text repeats; no text left out occurs more often than a listed one |
| Dashboard.ManagerPanel | app.py:238-328 | the screen shows a message when there are no documents, another when none fall in the period, and otherwise the report of the period's records: their archetype counts, flag counts, rate and top objections; the seller table (the rollup of the period) exactly when some record is named; the alert table and its row sums exactly when some named record is non-ideal, never without the seller table; and one to five top objections |
| Dashboard.SellerTable | app.py:290-315 | the seller table is shown exactly when some record of the period is named, and is the rollup of the period |
| Dashboard.Alerts | app.py:304-311 | the alert table and its row sums are shown exactly when some named record of the period has an archetype other than "O Guerreiro" |
| Dashboard.Top | app.py:321-326 | a non-empty period always lists between one and five objections, so the "no objections" branch is never taken |
| Dashboard.AlertDespiteIdealMode | app.py:297-305 | a seller whose dominant archetype is "O Guerreiro" can still appear in the alert table, because the table counts every non-ideal record rather than the dominant archetype |
| Dashboard.SampleTeamMode | app.py:297 | the sample seller's dominant archetype is "O Guerreiro" |
| Dashboard.SampleTeamAlert | app.py:305 | the sample seller's alert cell for "O Medroso" is 1 |

## Left out

- Streamlit rendering: page layout, tabs, markdown, charts, metrics and `st.rerun`. These are rendering only; the model keeps which branch of the screen is taken.
- The request to the language model and its prompt (app.py:119-160). The reply is a parameter of `Analyze`. The request at app.py:151 is not inside a `try`, so when it fails the run stops before app.py:163 and nothing is written, which leaves the session as if the button had not been pressed; that is why `Analyze` has no failure path.
- Firebase initialisation, the collection read in `carregar_dados_interacoes` and its `st.cache_data` memoisation (app.py:18-55, app.py:77-95, app.py:235). These are external storage and library caching. The manager view takes the document sequence as a parameter.
- `doc_ref.set` itself. Whether the write succeeds is the parameter `written` of `Confirm`, and the success and error messages are not modelled.
- `datetime.now()` (app.py:61) is nondeterministic, so it is the parameter `now`. The `%Y-%m-%d %H:%M:%S` formatting and `pd.to_datetime` parsing are left out. A timestamp is a day number plus a second of the day.
- The default bounds of the date pickers (app.py:244-251). These bounds are widget defaults; `start` and `end` are parameters.
- Session-state values that are not strings, and the `text_input` and `text_area` widgets. The seller's inputs are parameters.
- Valid: holds only because the reply is a string. If `message.content` were `None`, app.py:163-165 would write three keys and the `split` at app.py:172 would raise before app.py:182-185. The session would keep a partial draft, and the confirm buttons would then read missing or stale parsed keys. The model does not capture that path.
- Floating point. Every percentage is an exact quotient, so `.round(2)`, `fillna(0)` and the `:.2f` formatting are not modelled. `RowOf` returns 0 for an empty group, but a group is never empty.
- Sorting for display (app.py:263, app.py:301, app.py:309) and the CSV export (app.py:330-339). These are display only. The aggregates are modelled unsorted.
- The branches for a missing column (app.py:271, app.py:286, app.py:313, app.py:328). Every modelled document has every field, so these branches cannot arise.
- `pd.Series.mode` on values that are not strings (missing values are dropped by pandas). Every archetype here is a string.
- TopObjections: among texts with equal counts, pandas does not promise an order. The model lists tied texts in their order of first occurrence. The contract states only what holds for any order: counts do not increase, and nothing left out outnumbers a listed text.
- The alert table's layout as rows and columns. `AlertTable` is a multiset of (seller, archetype) pairs, which is the same information without the layout.
