# A verified model of GNU datamash and decorate

GNU datamash reads lines of fields and prints, for every group of neighbouring lines with the same
key fields, statistics of other fields. It does so in one pass: two line buffers that swap roles,
accumulators that are reused from group to group, packed string vectors, a hash set of pointers into
an arena. Its companion decorate sorts files on fields that sort(1) cannot compare: it puts converted
fields in front of every line, rewrites the sort keys to match, runs sort, and strips the fields again.

This project models those programs in Dafny and proves what their loops compute. A loop of the source
is a method with the same loop; its contract ties the result or the new state to a function of the
input, and lemmas prove what that function means. Objects with fields that are updated in place are
classes (line records, field operations, the engine, the seen-set of rmdup, scanner and parser,
decorate's key lists, the crosstab tables); values are datatypes. `die` is a failure result.

## Modules

- `Text`, `Lists`, `Numerals`: character classes and maximal scans, C strings, lists, decimal and
  fixed-width digits.
- TextLines: line records and field splitting (src/text-lines.c).
- StringVector: packed string vectors, `unique`, `countunique`, `collapse` (src/field-ops.c).
- `OrderStatistics`, `Moments`: the statistics of src/utils.c, over the reals.
- FieldOps: accumulators and their summaries (src/field-ops.c).
- `GroupBy`, `GroupFacts`, `KeptLine`, `GroupOutput`: the batch meaning of group-by, and its
  consequences; which line represents a group; the records token by token, and when there are any.
- Datamash: the streaming engine, proved equal to that meaning (src/datamash.c).
- Headers: the output header line (src/datamash.c).
- `Rmdup`, `Transpose`, `Crosstab`, `CrosstabGroups`: the other modes.
- `OpScanner`, `OpParser`, `OpLists`, `OpPrinter`, `OpEnds`, `GroupColumns`: the operation language.
- `DoubleFormat`, `Extensions`: `--format`, and file name extensions.
- `KeyCompare`, `KeySpec`, `KeySyntax`: sort keys, their text and their syntax (src/key-compare.c,
  src/decorate.c).
- `KeyShift`, `Decorate`, `Undecorate`, `SortPipeline`, `SortedOutput`: the decorate program
  (src/decorate.c).
- Conversions: decorate's built-in conversions (src/decorate-functions.c).
- Worked: inputs and outputs written out.
- Examples: an input for each of the shortfalls listed next.

## Where the code falls short of what it promises

Each of these is proved as an exact condition, and by an input that shows it.

- Undecorating does not restore an empty line, nor a line of two or more characters that starts with
  a blank: `Undecorate.UndecorateInverts`. With `-k1,1:roman` the line " II" comes out as "II":
  `Examples.LeadingBlankLost`.
- When the first decorated key has no end or selects nothing, decorate shortens its view of the line
  by one byte for all later keys: `SortPipeline.ArgumentIsText`. So `-k1:strlen -k2,2:roman` converts
  "II" on the line "a III": `SortPipeline.ChompedExample`.
- Without `-t`, a rewritten key that starts in the first field starts one character early:
  `KeyShift.ShiftedStartWithBlanks`. With `-k1,1:strlen -k1.2` sort compares "ab" on the line "ab", not
  "b": `Examples.StartsOneEarly`.
- Character offsets of a decorated key cut the converted text: `KeyShift.MovedKeyRight`. With
  `-k1.2,1:roman` sort does not see the first digit of the number: `Examples.OffsetCutsNumber`.
- `-g "1 2"` groups by column 2, because the next token is peeked before the number is used:
  `GroupColumns.NumberMeansItself`, `GroupColumns.OverwrittenColumn`.
- Blanks after the last column of the operations are an invalid operand:
  `OpEnds.TrailingBlankRefused`, "sum 1 " in `Examples.BlankAfterColumn`.
- A group range overflows the int counter if it ends at INT_MAX, and goes through the conversion to
  int if it lies beyond: `GroupColumns.GroupRangeRead`. So "2147483647-2147483647" is undefined,
  "4294967297-5" adds columns 1 to 5, and "1-2147483648" none: `GroupColumns.GroupExamples`.
- A column item that is both a pair and a range leaves operations on pairs without a partner:
  `OpLists.ExpandedAllPaired`, "pcov 1:3-5" in `Examples.PairAndRange`.
- The header of a pair operation whose second column does not exist fails an assertion instead of
  reporting the error: `Headers.PartnerAsserts`, "pcov 1:3" in `Examples.MissingPartner`.
- On input whose keys are not contiguous, crosstab shows only the first group of a cell:
  `Crosstab.AllResultsShown`, `Examples.SecondGroupLost`.
- Transposing twice loses a column that is one empty field: `Transpose.TransposeTwice`,
  `Examples.EmptyFieldsLost`.

## Model

| member | source | states |
|---|---|---|
| `TextLines.JoinSplit` | src/text-lines.c:159-181 | a line with k delimiters has k+1 fields without delimiters, whose join is the line; an empty line has none |
| `TextLines.SplitJoin` | src/text-lines.c:159-181 | a field list survives join and split exactly if no field holds the delimiter and it is not one empty field |
| `TextLines.WordsShape` | src/text-lines.c:120-156 | in blank mode no field holds a blank, and only the last can be empty, exactly when blanks end the line |
| `TextLines.WordsOfLay` | src/text-lines.c:120-156 | words laid out with blanks between them are read back as those words |
| `TextLines.LineRecord.ReserveFields` | src/text-lines.c:83-92 | the field table grows past index n and keeps its entries |
| `TextLines.LineRecord.ParseFields` | src/text-lines.c:94-182 | the in-place scan leaves exactly the fields of the line in the table, every store inside it |
| `TextLines.LineRecord.ParseDelimited` | src/text-lines.c:159-181 | the delimiter loop finds exactly the pieces between delimiters |
| `TextLines.LineRecord.ParseBlanks` | src/text-lines.c:120-156 | the blank loop finds exactly the words |
| `TextLines.LineRecord.ReadNext` | src/text-lines.c:225-299 | reading skips comment lines if asked to and delivers the fields of the next data line |
| `TextLines.CommentLine` | src/text-lines.c:185-195 | a comment is a line with nothing but blanks before its first `#` or `;` |
| `TextLines.DataLinesSays` | src/text-lines.c:225-299 | every line is read, in order, but the comments when they are skipped |
| `StringVector.GetStringPtrs` | src/field-ops.c:286-311 | the pointers into the packed buffer designate exactly the collected strings, in order, inside the used bytes |
| `StringVector.SameSays` | src/datamash.c:387-404 | strings are the same if they are equal, or without case if they differ in the case of letters only |
| `StringVector.UniqueValue` | src/field-ops.c:695-728 | writes the joined distinct strings of the sorted vector into a buffer of str_buf_used bytes, never past it |
| `StringVector.CountUniqueValues` | src/field-ops.c:731-759 | counts the items unique would print |
| `StringVector.UniqueIsDistinctList` | src/field-ops.c:695-728 | for any result of qsort the list is strictly increasing, drawn from the input, and has one string for every key (case-insensitive too) |
| `StringVector.UniqueCount` | src/field-ops.c:731-759 | for any result of qsort the count is the number of different keys |
| `StringVector.CollapseValue` | src/field-ops.c:763-775 | replacing NULs in place gives the join of the collected strings in input order |
| `OrderStatistics.SortedUnique` | src/utils.c:482-486 | whatever qsort does, its sorted result is the one of the model |
| `OrderStatistics.QuantileBetween` | src/utils.c:76-90 | a quantile lies between the two order statistics around its position |
| `OrderStatistics.QuantileInterpolates` | src/utils.c:76-90 | between two neighbouring order statistics the quantile is the line through them |
| `OrderStatistics.QuantileMonotone` | src/utils.c:76-90 | on sorted values quantiles increase with the quantile |
| `OrderStatistics.QuantileEnds` | src/utils.c:76-90 | quantile 0 is the minimum and quantile 1 the maximum |
| `OrderStatistics.MedianIsQuantile` | src/utils.c:60-71 | the short median formula equals the quantile 1/2, for every n |
| `OrderStatistics.QuartilesOrdered` | src/utils.h:80-92 | min, q1, median, q3, max are in order, so iqr is not negative; perc 25, 50, 75 are q1, median, q3 |
| `OrderStatistics.ModeValue` | src/utils.c:411-439 | on sorted values the run-length loop returns the smallest value of greatest (antimode: least) multiplicity |
| `OrderStatistics.UpdateBestSeq` | src/utils.c:399-409 | after one more finished run the best is the value of greatest (antimode: least) multiplicity among all values read, the smallest of equals |
| `OrderStatistics.ModeUnique` | src/utils.c:411-439 | there is only one such value |
| `OrderStatistics.MadValue` | src/utils.c:105-117 | computes the scaled median of the sorted absolute deviations |
| `OrderStatistics.HalfWithinMad` | src/utils.c:105-117 | at least half of the values lie within madraw of the median |
| `OrderStatistics.TrimmedMeanValue` | src/utils.c:441-461 | the loop computes the mean of the values left after trimming, or at 0.5 the median |
| `OrderStatistics.TrimmedMeanBetween` | src/utils.c:441-461 | below 0.5 nothing is divided by zero and the mean lies between the smallest and largest value left |
| `Moments.ArithmeticMeanValue` | src/utils.c:119-128 | the loop computes the mean |
| `Moments.VarianceValue` | src/utils.c:130-150 | the loop computes the mean squared deviation over n-df, nan for df = n |
| `Moments.CovarianceValue` | src/utils.c:152-174 | the same for the product of two deviations |
| `Moments.DotProductValue` | src/utils.c:209-219 | the loop computes the dot product |
| `Moments.DeviationsCancel` | src/utils.c:119-128 | the deviations from the mean sum to zero |
| `Moments.CovarianceOfSelf` | src/utils.c:130-174 | the covariance of a column with itself is its variance, for either df |
| `Moments.CovarianceOnePass` | src/utils.c:152-174 | the two-pass covariance equals the one-pass formula from the three sums |
| `Moments.CauchySchwarz` | src/utils.c:176-207 | sumCo squared is at most sumA times sumB |
| `Moments.PearsonCorrValue` | src/utils.c:176-207 | the loop's three sums are the dot products of the deviations; the result is their correlation, nan without deviation |
| `Moments.PearsonBounded` | src/utils.c:176-207 | whenever it is a number the coefficient lies between -1 and 1 |
| `Moments.PearsonIs` | src/utils.c:176-207 | its square times the two sums of squared deviations is the squared sum of products, with the sign of that sum; nan exactly if a column does not vary or there are too few values |
| `Moments.SkewnessValue` | src/utils.c:232-264 | the loop computes the moment ratio, with the sample correction, nan where the source says so |
| `Moments.ExcessKurtosisValue` | src/utils.c:292-326 | the same for the fourth moment |
| `Moments.SkewnessIs` | src/utils.c:232-264 | which number that is, from the sums of squared and cubed deviations, for a population and a sample, and exactly when it is nan |
| `Moments.KurtosisIs` | src/utils.c:292-326 | the same from the sums of second and fourth powers |
| `Moments.MomentInequality` | src/utils.c:232-326 | m2 times m4 is at least m3 squared plus m2 cubed, for all data |
| `Moments.KurtosisSkewnessBound` | src/utils.c:232-326 | population excess kurtosis is at least skewness squared minus 2 whenever both are numbers |
| `Moments.ConstantData` | src/utils.c:232-326 | population skewness and excess kurtosis of two or more values are nan exactly for constant data |
| `FieldOps.FieldOp.AddString` | src/field-ops.c:245-258 | appends the string and its NUL; the capacity is never exceeded |
| `FieldOps.FieldOp.ReplaceString` | src/field-ops.c:262-284 | leaves exactly the new string in the buffer |
| `FieldOps.FieldOp.Collect` | src/field-ops.c:364-654 | one field changes the accumulator as its fold step says, and reports whether the line is to be kept |
| `FieldOps.FieldOp.Reset` | src/field-ops.c:1214-1225 | whatever was collected, the accumulator is as new, although its vectors keep old entries |
| `FieldOps.FieldOp.Summarize` | src/field-ops.c:889-1138 | the printed cell is the summary of the accumulator and of the partner's values; unequal pairs are fatal |
| `FieldOps.FoldMeaning` | src/field-ops.c:364-654 | the accumulator after a group holds count, extreme, sum, values or strings of exactly the fields that count |
| `FieldOps.NaTexts` | src/utils.c:39-46 | the sixteen texts --narm takes for missing values |
| `FieldOps.KeptSays` | src/field-ops.c:375-376 | all fields count, in order, but missing values under --narm |
| `FieldOps.SummaryIsStatistic` | src/field-ops.c:889-1138 | the summary is the statistic the operation is named after, of exactly those fields: quantiles at 1/2, 1/4, 3/4 and p/100, the median deviation, the mean of the middle, sums of products of deviations over n or n-1, joined strings; and one fixed cell per operation for no fields |
| `FieldOps.PairsAligned` | src/field-ops.c:349-361 | without --narm both columns of a pair have one value per line, so a pair never fails |
| `GroupBy.RepresentativeIrrelevant` | src/datamash.c:387-404 | comparing a line with any line of the group gives the same answer, case-insensitive too |
| `GroupBy.FirstDifference` | src/datamash.c:387-404 | the first key column in which two lines are not equal decides: lacking it is fatal, another value starts a new group |
| `GroupBy.RunsPartition` | src/datamash.c:682-731 | the runs are a partition of the lines into maximal unbroken groups, in order |
| `GroupBy.PartitionUnique` | src/datamash.c:682-731 | there is no other such partition |
| `GroupBy.RunHasOneKey` | src/datamash.c:387-404 | all lines of a run have the same key, not only neighbours |
| `GroupFacts.GroupSizesSum` | src/datamash.c:682-731 | the sizes of the groups add up to the number of lines |
| `GroupFacts.LinesAlone` | src/datamash.c:698-715 | in the per-line modes every line is a group of its own |
| `GroupFacts.OneGroup` | src/datamash.c:698-715 | without key columns all lines are one group |
| `GroupFacts.CountIsSize` | src/field-ops.c:364-654 | without --narm count prints the size of the group |
| `GroupFacts.OnceIffContiguous` | src/datamash.c:682-731 | every key is printed once exactly if equal keys are contiguous |
| `GroupFacts.GroupIsKeyLines` | src/datamash.c:682-731 | if equal keys are contiguous, a group consists of all lines of the input with its key, in order |
| `GroupFacts.CellIsStatistic` | src/datamash.c:583-602 | every cell is the statistic of its own column over the lines of its group |
| `GroupFacts.ResultsNeverFail` | src/datamash.c:583-602 | without --narm the results of a group can always be printed |
| `KeptLine.KeptLineIs` | src/datamash.c:406-434 | for any operations, with --narm too: the kept line is the last one that some operation asks for (an extreme that beats all earlier numbers, the first field for `first`, any field for `last`), or else the first line |
| `KeptLine.KeptForLast` | src/field-ops.c:505-508 | without --narm a `last` keeps the last line of the group |
| `KeptLine.KeptFirst` | src/datamash.c:716-723 | without an extreme or `last` the first line is kept |
| `KeptLine.KeptForExtreme` | src/field-ops.c:442-480 | with one min, max, absmin or absmax, the kept line is the first that attains it |
| `GroupOutput.GroupRecord` | src/datamash.c:613-647 | what a group prints are the key fields of its kept line in the order of the key columns, or all its fields, and then the results of the operations that are not subordinate, in order |
| `GroupOutput.OutputOfRun` | src/datamash.c:655-731 | the record of run r follows those of the runs before it |
| `GroupOutput.RecordOfRun` | src/datamash.c:655-731 | for an input without fatal errors, the tokens of the record of run r by their positions in the output |
| `GroupOutput.SucceedsSays` | src/datamash.c:406-731 | there is no fatal error exactly if every operation can use its field in every line, every line can be compared with the one before, and every group has its keys and results |
| `Datamash.Engine.Different` | src/datamash.c:387-404 | compares the key columns in order; a missing column is fatal when it is reached |
| `Datamash.Engine.ProcessLine` | src/datamash.c:406-434 | feeds every operation its column, fails exactly on a missing column or invalid number, and asks to keep the line if any operation does |
| `Datamash.Engine.PrintInputLine` | src/datamash.c:436-464 | prints the keys, or with --full every field, each with a separator |
| `Datamash.Engine.SummarizeFieldOps` | src/datamash.c:583-602 | prints one cell per operation that is not subordinate, separators between, then the line end |
| `Datamash.Engine.ResetFieldOps` | src/datamash.c:604-609 | no state of a group is left for the next |
| `Datamash.Engine.ProcessGroup` | src/datamash.c:611-647 | prints the finished group from its representative and resets; an empty group prints nothing |
| `Datamash.Engine.StartsGroup` | src/datamash.c:698-715 | the length-zero sentinel says "no group yet" exactly when there is none |
| `Datamash.EmptyLineFails` | src/datamash.c:406-434 | a line without fields is fatal, so a representative never has length zero |
| `Datamash.Engine.ProcessFile` | src/datamash.c:655-731 | the streaming loop succeeds exactly when the batch meaning is defined, and prints the records of the maximal runs in order |
| `Headers.PrintColumnHeaders` | src/datamash.c:477-542 | prints the header line or says which column is missing; the inner loop stays inside the list of operations |
| `Headers.HeaderPrinted` | src/datamash.c:477-542 | the header is printed exactly if the input has every column it names |
| `Headers.PartnerAsserts` | src/datamash.c:477-542 | the header line fails the assertion of get_input_field_name exactly if the keys exist and the first operation whose column is missing is the second of a pair |
| `Headers.HeaderSays` | src/datamash.c:477-542 | a printed header has `GroupBy(x)` for every key column, or all names with --full, and for every operation that prints its name and the names of its columns, joined by commas |
| `Headers.HeaderMatchesRows` | src/datamash.c:440-602 | header and result lines have the same cells and separators in the same places |
| `Rmdup.SeenKeys.WriteCandidate` | src/datamash.c:1118-1120 | overwriting the free tail of the arena leaves every stored key intact |
| `Rmdup.SeenKeys.NewBuffer` | src/datamash.c:1102-1117 | a new buffer has room for the key, however long, and moves no stored key |
| `Rmdup.SeenKeys.HashInsertIfAbsent` | src/utils.c:488-493 | the comparison never sees the same pointer twice; a pointer is stored exactly if its string is new |
| `Rmdup.SeenKeys.AddKey` | src/datamash.c:1102-1130 | the strings behind the stored pointers are the different keys so far, the new one last |
| `Rmdup.RemoveDupsInFile` | src/datamash.c:1094-1145 | prints the first line of every different key in input order; fails exactly if a line lacks the key column |
| `Rmdup.FirstOfEachKeyFacts` | src/datamash.c:1094-1145 | those lines have different keys, all keys of the input, and each is the first with its key |
| `Rmdup.LinesKept` | src/datamash.c:1094-1145 | they are exactly the lines whose key no earlier line has, in the order of the input |
| `Rmdup.RmdupIdempotent` | src/datamash.c:1094-1145 | removing duplicates again changes nothing |
| `Transpose.TransposeFile` | src/datamash.c:736-797 | prints field i of every line, or the filler, as line i; strict mode fails exactly on uneven lines |
| `Transpose.TransposedSays` | src/datamash.c:736-797 | for any text: as many lines as the longest line has fields; line i shows field i of every line or the filler; strict mode fails exactly over two neighbouring lines with different numbers of fields |
| `Transpose.TransposeTwice` | src/datamash.c:736-797 | for lines with equally many fields, twice is the identity exactly if no column is a single empty field |
| `Transpose.ReverseFieldsInFile` | src/datamash.c:808-897 | prints the fields of every line in reverse; strict mode fails exactly on uneven lines |
| `Transpose.ReverseTwice` | src/datamash.c:808-897 | reversing twice gives every text back |
| `Crosstab.CrosstabTables.AddResult` | src/crosstab.c:129-147 | the tables hold all row and column names and the first value of every cell |
| `Crosstab.CrosstabTables.Print` | src/crosstab.c:150-193 | prints the table over the increasing lists of names, missing cells filled |
| `Crosstab.TableSays` | src/crosstab.c:150-193 | the first line of the table holds the column names; every other one its row name and, for each column, the data of the first result with these names, or the filler |
| `Crosstab.ShownIsJoin` | src/crosstab.c:150-193 | the output is the lines of the table with their cells joined by the separator, each with a line end |
| `Crosstab.ListingUnique` | src/crosstab.c:154-162 | the order of the hash tables does not show in the output |
| `Crosstab.AllResultsShown` | src/crosstab.c:142-146 | all results are shown exactly if no two results of one cell differ |
| `CrosstabGroups.AllGroupsShown` | src/datamash.c:619-638 | if equal keys are contiguous, the result of every group of the input is in the table |
| `CrosstabGroups.CellOfLine` | src/datamash.c:619-638 | then the cell for the names of any line shows the result over exactly the lines with that key |
| `CrosstabGroups.PrintedCell` | src/datamash.c:619-638 | and that result is printed in the table's line of its row name, under its column name |
| `CrosstabGroups.NamesOfLine` | src/datamash.c:619-638 | with case-sensitive keys, the row and column of that cell are the names in the line |
| `OpScanner.Scanner.GetToken` | src/op-scanner.c:105-217 | delivers the peeked token, or reads the one at the scan position and loads the scan variables |
| `OpScanner.Scanner.PeekToken` | src/op-scanner.c:94-103 | the next token is unchanged by a peek, but the scan variables are overwritten |
| `OpScanner.Scanner.ReadName` | src/op-scanner.c:180-213 | the identifier loop stays in its buffer and reads the unescaped name; too long or a trailing backslash is fatal |
| `OpParser.Parser.ParseColumn` | src/op-parser.c:333-367 | appends the field records of one item and consumes exactly its tokens |
| `OpParser.Parser.ParseColumnList` | src/op-parser.c:369-381 | the same for a list |
| `OpParser.Parser.ParseParams` | src/op-parser.c:383-451 | reads the parameters, numbers or for getnum a letter, and the blanks after them |
| `OpParser.Parser.CreateFieldOps` | src/op-parser.c:461-502 | the field records become exactly the operations their items stand for; pair and non-pair must match the operation |
| `OpParser.Parser.ParseOperations` | src/op-parser.c:537-557 | the token loop computes the grammar's meaning of the text, or fails where it has none |
| `OpLists.ParsedWellPaired` | src/op-parser.c:489-557 | for every input, a primary follows its subordinate, which has its operation and index; the last operation is never subordinate |
| `OpLists.ExpandedAllPaired` | src/op-parser.c:461-502 | no pair operation stands alone exactly if no item is a pair and a range that starts below its second column |
| `OpLists.RangeIsList` | src/op-parser.c:477-487 | a range stands for the same operations as its columns written out |
| `OpLists.ExpandedSays` | src/op-parser.c:461-502 | the operations an item adds: one for a column, one for each column of a range in order, a subordinate and its primary for a pair |
| `OpLists.ExpandedInOrder` | src/op-parser.c:461-502 | the items of a list add their operations one after the other |
| `OpLists.ParsedIsConfig` | src/op-parser.c:489-500 | what the engine demands of its operations is what the parser guarantees, exactly if none stands alone |
| `OpPrinter.ParsePrinted` | src/op-parser.c:383-557 | any list of requests with any parameters, written out with escapes, parses to exactly the operations it stands for |
| `OpPrinter.RangeAccepted` | src/op-parser.c:333-367 | a range is read as its columns exactly if they are numbered from 1 and go up |
| `OpPrinter.BadRangeRefused` | src/op-parser.c:333-367 | a request for any other range fails |
| `OpPrinter.NameToken` | src/op-scanner.c:177-213 | any non-empty name of at most 511 characters can be written and is read back |
| `OpPrinter.NumberToken` | src/op-scanner.c:155-175 | a decimal number up to the largest long is read back |
| `OpPrinter.FloatToken` | src/op-scanner.c:155-175 | so is a floating-point number, with an exponent too, whose whole part fits a long |
| `OpEnds.DanglingRefused` | src/op-scanner.c:119-217 | no text that ends in a blank or backslash outside a name is accepted, whatever its operations are |
| `OpEnds.TrailingBlankRefused` | src/op-scanner.c:119-217 | every accepted text is refused with a blank after it |
| `GroupColumns.GroupParser.ParseModeColumn` | src/op-parser.c:559-618 | adds the columns of one item, is fatal, or overflows; ranges go through int |
| `GroupColumns.GroupParser.ParseModeColumnList` | src/op-parser.c:620-640 | the same for a list, which no range or pair may follow |
| `GroupColumns.NumberMeansItself` | src/op-parser.c:581-588 | a column number means itself exactly if no other number follows it |
| `GroupColumns.OverwrittenColumn` | src/op-parser.c:585-587 | "n m" adds column m, for any two numbers, so it is right only if they are equal |
| `GroupColumns.GroupRangeRead` | src/op-parser.c:589-605 | a range adds exactly its columns if and only if it ends before INT_MAX; one that ends before it starts is refused exactly if its start as an int is negative or still above its end |
| `GroupColumns.GroupExamples` | src/op-parser.c:581-605 | "1 2", a range that overflows the counter, one that starts past INT_MAX, and one that ends past it |
| `GroupColumns.GroupListRead` | src/op-parser.c:620-640 | a list written with commas groups by exactly its columns |
| `DoubleFormat.ValidateDoubleFormat` | src/double-format.c:37-90 | the index loops accept or refuse the format, and the output buffer gets the format with an L before the type letter |
| `DoubleFormat.AcceptedExactly` | src/double-format.c:37-90 | accepted are exactly the formats that fit the buffer and have the form text % flags digits .digits type text |
| `DoubleFormat.AcceptsGrammar` | src/double-format.c:53-87 | the greedy spans are complete for that form, and a single L is inserted |
| `Extensions.GuessFileExtension` | src/utils.c:510-547 | the goto loop ends and returns the length of what it found |
| `Extensions.GuessIsExtension` | src/utils.c:510-547 | that is the longest trailing chain of add-on extensions and at most one ordinary extension before it, after a non-empty name |
| `Extensions.BareName` | src/field-ops.c:1189-1195 | the base name without the extension |
| `Extensions.ExtName` | src/field-ops.c:1177-1188 | the extension without its dot |
| `Extensions.NameDecomposed` | src/field-ops.c:1171-1195 | base name = bare name, or bare name + "." + extension; the bare name is not empty |
| `KeyCompare.BegField` | src/key-compare.c:143-183 | the pointer loops find the start of the key |
| `KeyCompare.LimField` | src/key-compare.c:188-285 | the pointer loops find its limit, size_t wrap-around included |
| `KeyCompare.KeyIsField` | src/key-compare.c:143-285 | with -t, -kN,N is exactly field N of the line |
| `KeyCompare.KeyIsTrimmedField` | src/key-compare.c:143-285 | with -t, -kNb,Nb is field N without its leading blanks, even where a blank separates the fields |
| `KeyCompare.KeyIsWord` | src/key-compare.c:143-285 | without -t, -kNb,N is exactly word N of the line |
| `KeyCompare.KeyIsPart` | src/key-compare.c:143-285 | with -t, -kN.A,N.B is characters A to B counted from the start of field N, stopped only by the end of the line |
| `KeyCompare.KeyIsPartOfWord` | src/key-compare.c:143-285 | without -t, -kN.Ab,N.Bb is characters A to B of word N |
| `KeySpec.ParseSortKeyArg` | src/decorate.c:544-609 | reads a key specification, or fails as the source does |
| `KeySpec.SetOrdering` | src/key-compare.c:357-421 | the flag loop; i does not override d, and b applies to the end it stands at |
| `KeySpec.CountMeans` | src/key-compare.c:319-349 | a decimal number, after blanks and a plus sign, counts as its value, or SIZE_MAX if that is larger |
| `KeySyntax.FlagsMean` | src/key-compare.c:357-421 | any flags in any order: b sets the blank flag of its end, d keeps i out, all others are set |
| `KeySyntax.SpecificationRead` | src/decorate.c:544-609 | every specification F[.C][OPTS][,F[.C][OPTS]] is read as the key it denotes, and refused exactly if a field or the start offset is zero |
| `KeySpec.DebugKeyField` | src/key-compare.c:464-518 | prints the key |
| `KeySpec.ParsedIsValid` | src/decorate.c:544-609 | every parsed key is valid |
| `KeySpec.RoundTrip` | src/key-compare.c:464-518 | parsing what is printed for a valid key gives back the key, all of the text used |
| `KeySpec.RewrittenKeyRead` | src/decorate.c:758-800 | the same for the rewritten keys that are handed to sort |
| `KeyShift.ShiftedKeyWithTab` | src/decorate.c:744-752 | with -t, a rewritten key delimits on the decorated line exactly the text the given key delimits on the line |
| `KeyShift.ShiftedStartWithBlanks` | src/decorate.c:744-752 | without -t, its start is right exactly if it is past the first field, skips blanks, or counts past the line; otherwise one early |
| `KeyShift.ShiftedEndWithBlanks` | src/decorate.c:744-752 | the same for its end |
| `KeyShift.ShiftedKeyWithBlanks` | src/decorate.c:744-752 | with both right the text is the same |
| `KeyShift.WholeKeyGainsABlank` | src/decorate.c:744-752 | a key from the start of the line gains the same one blank on every line |
| `KeyShift.MovedKeyWithTab` | src/decorate.c:733-743 | with -t and no start offset, the key of a decorated field is that field exactly if it has an end that does not cut it; with an offset inside the field it never is |
| `KeyShift.MovedKeyWithBlanks` | src/decorate.c:733-743 | without -t, the same for the field with the blank before it, which an offset of one may skip |
| `KeyShift.MovedKeyRight` | src/decorate.c:733-743 | the key of a decorated field is that field on every line exactly if it has an end and no character offsets, but for that one blank |
| `Decorate.Decorator.AdjustKeyFields` | src/decorate.c:711-756 | counts and copies the converted keys, and rewrites every key of the list in place |
| `Decorate.Decorator.InsertDecorateKey` | src/decorate.c:695-708 | appends a copy that skips blanks at both ends |
| `Decorate.Decorator.ConvertInPlace` | src/decorate.c:358-392 | converts the key between a temporary NUL and leaves the buffer as it was |
| `Decorate.Decorator.DecorateFields` | src/decorate.c:312-417 | prints every converted key with a separator, fails exactly if a conversion fails, and leaves the line buffer unchanged |
| `Decorate.Decorator.DecorateFile` | src/decorate.c:419-482 | header lines pass, every other line is decorated or ends the run |
| `Undecorate.UndecorateFile` | src/decorate.c:486-541 | every line loses the part begfield skips |
| `Undecorate.UndecorateInverts` | src/decorate.c:486-541 | undecorating a decorated line gives it back exactly if it has one character, or is not empty and starts with no blank; with and without -t |
| `SortPipeline.LaterArgument` | src/decorate.c:398-414 | a later conversion gets its key's text exactly if the line was not chomped, the text is empty, or it ends before the last character |
| `SortPipeline.ArgumentIsText` | src/decorate.c:329-414 | the exact condition for any conversion to be given the text its key names |
| `SortPipeline.ChompedExample` | src/decorate.c:332-347 | with -k1:strlen -k2,2:roman the second conversion of "a III" gets "II" |
| `SortPipeline.MeaningOfField` | src/decorate.c:695-708 | the meaning of -kN,N with a conversion is the conversion of field N |
| `SortPipeline.SortKeyMeans` | src/decorate.c:711-756 | on the decorated line every rewritten key finds, after a mark common to all lines, the text the user's key names in the line, converted if it has a conversion |
| `SortedOutput.PipelineSorts` | src/decorate.c:1054-1189 | the output is a permutation of the input lines, in the order of the meanings of the user's keys, for any key orders and whatever sort does with equal lines |
| `SortedOutput.SortsByField` | src/decorate.c:1054-1189 | -kN,N with a conversion sorts the lines by the conversion of field N |
| `SortedOutput.SortsByRomanValue` | src/decorate-functions.c:65-108 | -kN,N:roman sorts the lines by the values of their numerals |
| `SortedOutput.SortsByLength` | src/decorate-functions.c:40-46 | -kN,N:strlen sorts the lines by the lengths of their fields |
| `SortedOutput.SortsByAddress` | src/decorate-functions.c:130-149 | -kN,N:ipv4 sorts the lines by the numbers of their addresses |
| `Conversions.RomanNumerals` | src/decorate-functions.c:65-108 | the loop with its pending letter computes the value by the subtraction rule, and refuses empty and foreign text |
| `Conversions.CanonicalValue` | src/decorate-functions.c:48-108 | the value of the canonical numeral of n is n |
| `Conversions.RomanOrder` | src/decorate-functions.c:105-107 | converted numerals sort as text by their value |
| `Conversions.StrLenOrder` | src/decorate-functions.c:40-46 | converted lengths sort as text by length |
| `Conversions.Ipv4Order` | src/decorate-functions.c:130-149 | converted IPv4 addresses sort by their number |
| `Conversions.Ipv6` | src/decorate-functions.c:152-178 | the byte loop prints eight colon-separated groups |
| `Conversions.GroupAt` | src/decorate-functions.c:152-178 | group k stands at position 5k: the four digits of its bytes, and a colon unless it is the last |
| `Conversions.Ipv6Order` | src/decorate-functions.c:152-178 | converted IPv6 addresses sort by their number, colons notwithstanding |
| `Conversions.Ipv6OrIpv4` | src/decorate-functions.c:181-207 | an IPv6 address gives its 32 digits, an IPv4 address its eight after the mapping |
| `Conversions.MappedIsIpv6` | src/decorate-functions.c:181-221 | an IPv4 address gives the digits of its IPv4-mapped or IPv4-compatible IPv6 address (sections 2.5.5.2 and 2.5.5.1 of RFC 4291) |
| `Conversions.MixedOrder` | src/decorate-functions.c:181-221 | mixed addresses sort by the IPv6 number they stand for |
| `Numerals.PaddedOrder` | src/decorate-functions.c:40-46 | zero-padded text order is numeric order, for numbers of one width |
| `Worked.SumColumns` | src/op-parser.c:461-502 | "sum 1-3,5" is four operations, on columns 1, 2, 3 and 5 |
| `Worked.PercentileOfName` | src/op-scanner.c:177-213 | "perc:90 a\-b" is the 90th percentile of the column a-b |
| `Worked.NumericKey` | src/decorate.c:544-609 | the key of "2.3b,4.5nr" |
| `Worked.AddressDigits` | src/decorate-functions.c:130-149 | 192.168.0.1 is converted to C0A80001 |
| `Worked.RomanFourteen` | src/decorate-functions.c:65-108 | XIV is converted to 14, padded to 21 digits |
| `Worked.DecoratedText` | src/decorate.c:312-417 | a decorated line is its converted fields, each with a blank or the -t character, and the line |
| `Worked.RomanRefused` | src/decorate-functions.c:65-108 | the empty text, XIA and x are no numerals |
| `Worked.LongFormat` | src/double-format.c:37-90 | "%5.2f%%" becomes "%5.2Lf%%" |
| `Worked.DoubleExtension` | src/utils.c:510-547 | a.tar.gz is the bare name a with the extension tar.gz |
| `Worked.UnevenTransposed` | src/datamash.c:736-797 | transposing two uneven lines, with the filler and in strict mode |
| `Examples.LeadingBlankLost` | src/decorate.c:486-541 | with -k1,1:roman the line " II" comes out without its blank |
| `Examples.StartsOneEarly` | src/decorate.c:744-752 | with -k1,1:strlen -k1.2 sort compares "ab" on the line "ab" although the key means "b" |
| `Examples.OffsetCutsNumber` | src/decorate.c:733-743 | with -k1.2,1:roman the key of the decorated line "xII" does not carry the number |
| `Examples.BlankAfterColumn` | src/op-scanner.c:119-133 | "sum 1" is accepted and "sum 1 " is not |
| `Examples.PairAndRange` | src/op-parser.c:339-366 | "pcov 1:3-5" parses to four operations, two of them without a partner |
| `Examples.MissingPartner` | src/datamash.c:508-534 | over two columns the header of "pcov 1:3" fails an assertion, that of "pcov 3:1" reports column 3 |
| `Examples.SecondGroupLost` | src/crosstab.c:142-146 | the table for three lines shows the first of the two results of a cell |
| `Examples.EmptyFieldsLost` | src/datamash.c:736-797 | transposing a line of two empty fields twice gives nothing |

## Left out

- Floating point: `long double` is `real`; rounding, NaN and infinity inputs, errno of strtold and locale are not modelled. A field is a number if the parameter `parse` says so; square roots come from a parameter that is one.
- printf of numbers: a cell is the value to be printed, not its digits.
- TextLines.LineRecord.ParseFields: the arguments that cut trailing comments and blanks are those of vnlog mode only, and off here.
- TextLines.LineRecord.ParseDelimited: as for ParseFields, no trailing comments.
- TextLines.LineRecord.ParseBlanks: as for ParseFields, no trailing comments or trimming of trailing blanks.
- TextLines.LineRecord.ReadNext: without the vnlog prologue.
- FieldOps.FieldOp.Collect: mode, antimode, pearson, skewness, kurtosis and mad scales are proved as functions on values but are not among the engine's operations; geomean, harmmean, softmax, jarque, dpo, rand, rounding, hashing, base64, getnum, bins and the other line operations would add easy cases.
- FieldOps.FieldOp.Summarize: the same operations as for Collect.
- Datamash.Engine.ProcessFile: what was printed before a fatal error is not stated; lines with NUL bytes are excluded; header lines are not part of the loop but modelled on their own.
- Datamash.Engine.ProcessGroup: the engine prints groups; what the crosstab branch hands to the tables is stated for the groups of the batch meaning, in CrosstabGroups.
- Header lines, named columns and --output-delimiter bookkeeping are not part of the engine's loop; the header line is modelled on its own.
- vnlog mode, check, noop, the mode and operation name tables, set_op_params and getopt.
- Transpose.ReverseFieldsInFile: without the header-line options.
- OpParser.Parser.ParseOperations: the table of operations with its parameter checks is a parameter; the loop that caches partner pointers is replaced by their indices.
- OpScanner.Scanner.GetToken: a Float carries its text, as strtold is not modelled; the identifier buffer's growth is not.
- Conversions.Ipv4Order: inet_pton and inet_aton are not modelled; addresses start as bytes.
- Conversions.RomanNumerals: the sum does not overflow intmax_t.
- KeyShift.ShiftedKeyWithTab: keys whose rewritten word numbers would overflow size_t are excluded; pointer sums past the address space are too.
- SortPipeline.SortKeyMeans: without -t, a key that counts characters from the start of the first field is excluded, as it does not keep its text; when its start and end are off is ShiftedStartWithBlanks and ShiftedEndWithBlanks.
- SortedOutput.PipelineSorts: sort(1) is any rearrangement in the order of its keys; the key orders are parameters that must not depend on one common leading blank, as byte order does not; locales, pipes and processes are not modelled.
- Crosstab.CrosstabTables.AddResult: hash tables are sets and maps on the names; names are not cut to 511 bytes.
- Rmdup.RemoveDupsInFile: the hash table is the list of its pointers; the header line is not modelled.
- qsort is insertion sort on values; sorted results are unique, so this does not show, and for strings the results hold for every outcome of qsort.
- Growing buffers of structures are sequences with a capacity; realloc moving them is not modelled.
