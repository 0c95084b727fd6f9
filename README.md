# judgefmt in Dafny

judgefmt prints an inference rule as a bracket diagram. It is invoked as

    judgefmt --name name -l0 p1 ... pk ... -ln p1 ... pk

Every `-l<i>` marker opens level `i`. The tokens after it, up to the next marker, are that level's labels. Each level becomes one row. The labels of a row are spread over a common width. Consecutive rows are separated by a rule of dashes. The rule name is written once, in the left margin (the "gutter") of the middle row.

This project models the two parts of `src/main.rs`:

- **The argument parser** (`parse_level`, `parse_args`, `validate_map`), in module `ArgParse`.
  - The Rust functions share a `BTreeMap<i32, Vec<String>>` and a peekable iterator. Here the map is a `LevelMap` value (`map<int, seq<string>>`, module `Levels`) and the iterator is an index into the token sequence.
  - The methods `ParseLevel`, `ValidateMap` and `ParseArgs` follow the Rust loops. They are proved against `Parse`, which splits the tokens into groups (a marker and its labels) and then merges the groups into a map.
  - The lemmas about `Parse` state which errors occur when, what a successful parse returns, and that a well-formed map written back as a command line parses to itself.
  - `str::parse::<i32>` on the text after the `-l` prefixes is `Decimal.ParseI32`: an optional sign, at least one ASCII digit, and a value in the i32 range.
- **The layout loop of `main`**, in module `Layout`.
  - `LevelWidths` computes the label lengths and the common width `min_total`.
  - `DrawLevel` prints one level label by label.
  - `Render` emits the whole diagram as a sequence of lines, one per `println!`.
  - Each method is proved against a definition of the intended drawing (`Total`, `Gaps`, `Content`, `Rule`, `Gutter`, `Row`). Lemmas state the widths, gaps and row order, and which row carries the name.

Strings are `seq<char>`, one element per byte, because the program measures widths with `len()`. No claim is made about display columns.

The project follows the code in `src/main.rs`. The code does not handle empty levels or centre a single label. The gap between labels is at least one, widths count bytes, and a level needs at least two labels, because line 94 divides by the label count minus one.

## Model

| member | source | states |
|---|---|---|
| Text.IsMarker | src/main.rs:49 | a token is a marker exactly when "-l" is a prefix of it, the `starts_with("-l")` test of lines 24 and 49 |
| Text.Repeat | src/main.rs:88-89 | `"c".repeat(n)` has length `n` and every element is `c` |
| Text.TrimMarkers | src/main.rs:50 | what `trim_start_matches("-l")` leaves never starts with "-l"; a token without the prefix is left alone |
| Text.TrimMarkersSuffix | src/main.rs:50 | what is left is a suffix of the token, and what was removed is "-l" repeated a whole number of times; with `TrimMarkers`' own contract this determines the result |
| Decimal.ParseI32 | src/main.rs:50 | a parsed index lies in the i32 range |
| Decimal.ParseI32Signed | src/main.rs:50 | for any text split into an optional sign and the rest, parsing succeeds exactly when the rest is a non-empty run of ASCII digits whose signed value is in the i32 range, and then yields that value; so the empty string and a lone sign are rejected |
| Decimal.ParseFormatInt | src/main.rs:50 | every i32 written in decimal parses back to itself |
| ArgParse.LevelIndex | src/main.rs:49-50 | the index a marker names is an i32 |
| ArgParse.MarkerIndex | src/main.rs:49-50 | the marker "-l" followed by the decimal digits of `k` starts with "-l" and names level `k`, for every `k` up to the i32 maximum |
| ArgParse.Append | src/main.rs:29-32 | `entry(level).or_insert(Vec::new()).push(..)`: the level exists afterwards and its labels are the earlier ones followed by the new ones |
| ArgParse.AppendOthers | src/main.rs:29-32 | pushing to one level neither adds nor changes any other level |
| ArgParse.RunEnd | src/main.rs:21-38 | the labels of a level are the tokens up to the next token that starts with "-l", or up to the end |
| ArgParse.NextGroup | src/main.rs:49-51 | one pass of the `parse_args` loop: "level doesn't start with -l" exactly when the token is not a marker, an index error exactly when its index does not parse, "missing args" exactly when a marker or the end follows (line 25 or 35), and otherwise a group of the parsed index and the non-marker labels up to the next marker or the end |
| ArgParse.ParseLevel | src/main.rs:15-40 | returns the position of the next marker or the end; fails with `MissingArgs`, leaving the map unchanged, exactly when no label follows; otherwise appends the labels, in input order, to the level's existing list |
| ArgParse.ValidateMap | src/main.rs:60-66 | fails with `EmptyArgs` exactly on the empty map, with `MissingLevel` exactly when the keys are not `0..len-1`, and passes otherwise |
| Levels.CoveredMeansContiguous | src/main.rs:62-64 | a map that holds every index below its size holds nothing else, so the loop over `0..len` decides contiguity |
| ArgParse.ParseArgs | src/main.rs:42-58 | on any tokens, the outcome (map or first error) equals `Parse` of the tokens |
| ArgParse.ResumeAfterGroup | src/main.rs:46-52 | one pass of the `parse_args` loop (marker, index, labels) leaves the final outcome unchanged |
| ArgParse.ParseOkShape | src/main.rs:15-66 | after a successful parse the map is non-empty, its keys are exactly `0..n-1`, and every level holds at least one label, none starting with "-l" |
| ArgParse.ParseNotMarkerIff | src/main.rs:49 | parsing fails with "level doesn't start with -l" exactly when the first token is not a marker |
| ArgParse.ParseMissingArgsIff | src/main.rs:24-35 | when the first token is a marker, parsing fails with "missing args" exactly when some marker is followed by another marker or by the end and every marker up to it names a valid index; markers after it are never parsed |
| ArgParse.ParseMissingArgsWitness | src/main.rs:24-35 | whatever the tokens, a "missing args" failure points at a marker with no label after it, and every marker up to it named a valid index |
| ArgParse.MergeLabels | src/main.rs:29-32 | a level ends with its earlier labels followed by the labels of every group naming it, in input order: a repeated index extends the list |
| ArgParse.MergeKeys | src/main.rs:29-32 | the levels after merging are the earlier ones plus every index some group names: a level exists exactly when it did before or some group names it |
| ArgParse.ParseUnparse | src/main.rs:42-66 | a map of the shape a successful parse returns, written out as "-l0 labels -l1 labels ...", parses back to itself |
| Layout.SumLen | src/main.rs:84 | a level's summed label length is at least the length of each of its labels |
| Layout.SumLenFold | src/main.rs:84 | summing from the last label back gives the same total as the `fold` from 0, which adds the first label first |
| Layout.MaxWidthIsMax | src/main.rs:83-86 | the running maximum is at least every level's width and equal to one of them (0 with no levels) |
| Layout.LevelWidths | src/main.rs:81-87 | `lev_lengths[j]` is the summed label length of level `j`, and `min_total` is the largest `sum + (k - 1)` over the levels |
| Layout.TotalIsWidest | src/main.rs:85 | every level fits in `min_total`, and some level is exactly that wide |
| Layout.LevelFits | src/main.rs:93 | `min_total - lev_lengths[level]` never underflows |
| Layout.Gaps | src/main.rs:93-113 | one run of spaces between each pair of neighbouring labels (`seq` + `rem` after the first label, lines 108-110; `seq` after each middle one, line 113); every run is at least 1 wide (`quo >= 1`), and the first exceeds the others by `rem`, which is less than the number of gaps |
| Layout.GapsSum | src/main.rs:93-95 | the gaps add up to `spaces`: `(k - 1) * quo + rem == min_total - sum` |
| Layout.WidestSingleSpaced | src/main.rs:93-95 | the widest level gets single spaces between its labels |
| Layout.Pieces | src/main.rs:105-117 | the three `print!` cases (first label, middle labels, last label) extend the row by the next label and its gap, and the last one completes it |
| Layout.DrawLevel | src/main.rs:93-118 | the printed row is the gutter followed by the level's content |
| Layout.ContentWidth | src/main.rs:105-117 | a level's row, gutter aside, is `min_total + 2` wide |
| Layout.Justified | src/main.rs:105-117 | the row is a space, the first label, ..., the last label and a space: the labels are flush with both edges |
| Layout.Gutter | src/main.rs:89 | the gutter is `name.len() + 1` wide, and it is `name:` exactly when the row is the named one |
| Layout.RowWidth | src/main.rs:88-117 | every row, level or rule, is `name.len() + 1 + min_total + 2` wide |
| Layout.NamedRow | src/main.rs:90-110 | exactly one row, `n - 1`, begins with `name:` |
| Layout.MiddleRow | src/main.rs:90 | `(n + (n - 1)) / 2 == n - 1`, which is even exactly when `n` is odd |
| Layout.MiddleRowKind | src/main.rs:90-110 | the named row shows the middle level when `n` is odd and a rule when `n` is even |
| Layout.Render | src/main.rs:81-119 | `2n - 1` lines: the levels in ascending order, a rule of `min_total + 2` dashes before every level except level 0, each line with its gutter |

## Left out

- `usage()` and `process::exit(2)` (lines 10-13 and 77-80) are not modelled. A parse error is returned as an `ArgError` value.
- `env::args()` and the `--name name` pattern (lines 69-74) are not modelled. `Render` takes the name as a parameter, and `ParseArgs` takes the tokens after it.
- `print!`, `println!` and `eprintln!` are not modelled as output. The rows are returned as a sequence of lines, and the error texts are the `ArgError` variants.
- `str::parse::<i32>` is a library call. It is modelled as a signed-decimal parser with a range check. Rust's exact rules beyond that are not modelled.
- `levels.len() as i32` (line 62) would wrap for maps with more than `i32::MAX` levels. The model compares against the unbounded size.
- ArgParse.ParseArgs: on an error it returns only the error, not the partly filled map. `main` exits in that case and never reads the map.
- Layout.Render: requires every level to hold at least two labels. With one label, line 94 divides by zero and the program panics after printing the rows before it; neither the panic nor that partial output is modelled.
- Layout.LevelWidths: requires every level to hold at least one label, as `vc.len() - 1` does. A successful parse guarantees this (`ParseOkShape`).
- Layout.DrawLevel: takes the gutter chosen by `Render` before the label loop. The Rust code makes the same choice inside the loop, when it prints the first label, with the same result.
- Strings are sequences of bytes stood in for by characters. Display width and Unicode are not modelled.
