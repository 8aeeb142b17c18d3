# pypi-cli statistics and bar graph, in Dafny

This project models the computational core of `pypi_cli.py`, the `pypi`
command-line client for the Python Package Index. The core has three parts.

- **Release aggregation** (`Package.release_info`, `versions`,
  `version_downloads`, `downloads`, `min_version`, `max_version`,
  `average_downloads`). It starts from the decoded `releases` object of a
  package's JSON, which maps each version to its list of uploaded files, each
  with a download count and an `upload_time` string. It drops the versions
  without files and orders the rest by the raw upload-time string of their
  first file, using a stable sort. It then sums the downloads per version and
  derives the total, the first version with the fewest and with the most
  downloads, and the truncated average. It also covers the guard `stat` puts
  in front of these figures.
- **The bar graph** (`bargraph`). One line is drawn per entry of an ordered
  label → count mapping, in the form `label [ count ] ****`. The labels are
  cut and left-aligned, and the counts are grouped by thousands and
  right-aligned. Each bar is `ceil(budget * count / largest)` ticks long,
  where the budget is what remains of the terminal width.
- **Identifier parsing** (`PYPI_RE` as `stat` uses it). This is the optional
  `http(s)://host/pypi/` prefix, the package name and the optional
  `/version`.

Modules:
- `Wrappers` holds `Option` and `Result`.
- `Text` holds Python's string order, `str.format` padding, slicing, and
  `'\n'.join` / `split`.
- `Grouping` holds the `'{:,}'` format.
- `Releases` holds `release_info`.
- `Package` holds the per-package figures and `stat`'s guard.
- `BarGraph` holds `bargraph`.
- `Identifier` holds `PYPI_RE`.
- `Arith` holds multiplication facts used by the proofs.

Python dicts (the `releases` object, the `OrderedDict`s) are sequences of
records in iteration order. Download counts are natural numbers. The
terminal width is a parameter.

Where the code and its documentation differ, the model follows the code:
- The sort key is the raw `upload_time` string, compared as Python compares
  strings. It is not a parsed date.
- No bar length is floored at zero explicitly. A non-positive
  `ceil(...)` repeats the tick zero times, which is what Python's `str * n`
  does for `n <= 0`.

## Model

| member | source | states |
|---|---|---|
| Releases.WithFiles | pypi_cli.py:224-227 | the filtered listing holds only releases with files; a release is in it exactly when it is in the input and has at least one file; for every upload time, the releases with that first-upload time appear in the same order as in the input |
| Releases.ReleaseInfoContents | pypi_cli.py:222-229 | `release_info` holds exactly the input versions whose file list is non-empty, each with its own file list; as a multiset it is the filtered listing, so nothing is added or duplicated |
| Releases.SortSorted | pypi_cli.py:229 | the sorted listing is non-decreasing by the first file's `upload_time` under Python's string order |
| Releases.SortTieOrder | pypi_cli.py:229 | the sort is stable: releases with the same first-upload time keep their relative input order |
| Releases.SortedUnique | pypi_cli.py:229 | two sorted listings that order every group of equal upload times alike are equal, so any stable sort by that key gives the same listing |
| Releases.ReleaseInfoCharacterised | pypi_cli.py:222-229 | a listing equals `release_info` if and only if it is sorted by first upload time and keeps the input order within each upload time (both directions) |
| Releases.ReleaseInfoDistinct | pypi_cli.py:224-229 | when the input's versions are distinct (dict keys), so are those of `release_info` |
| Text.LessEqTotalOrder | pypi_cli.py:229 | Python's `<=` on strings, the sort's comparison, is a total order: total, antisymmetric and transitive |
| Package.CountsOf | pypi_cli.py:216-220 | one entry per listed release, in order, with that release's version and the sum of its files' downloads |
| Package.VersionDownloadsShape | pypi_cli.py:208-220 | `version_downloads` has one entry per `release_info` entry, in the same order, each summing that release's files; its keys are `versions`, and they are distinct when the input versions are |
| Package.DownloadsCountsEveryFile | pypi_cli.py:255-261 | `downloads` equals the sum of the downloads of every file of the input; it is 0 when there are no releases |
| Package.MinOf | pypi_cli.py:274-280 | `(None, 0)` exactly for the empty mapping; otherwise the version and count of the first entry whose count is no greater than every count, with all earlier entries strictly greater |
| Package.MaxOf | pypi_cli.py:263-272 | `(None, 0)` exactly for the empty mapping; otherwise the version and count of the first entry whose count is no less than every count, with all earlier entries strictly smaller |
| Package.TruncatedDiv | pypi_cli.py:285 | `int(total / n)` for a positive count is the q with q * n <= total < (q + 1) * n |
| Package.AverageDownloads | pypi_cli.py:282-285 | with at least one version, avg * len(versions) <= downloads < (avg + 1) * len(versions) |
| Package.TotalBounds | pypi_cli.py:261 | a sum of n counts, each between lo and hi, lies between n * lo and n * hi |
| Package.QuotientBetween | pypi_cli.py:285 | a truncated quotient of a total between n * lo and n * hi lies between lo and hi |
| Package.AverageBetweenMinAndMax | pypi_cli.py:263-285 | the average lies between `min_version`'s and `max_version`'s download counts |
| Package.Stat | pypi_cli.py:104-114 | `stat` fails with "no releases" exactly when no version has a file; otherwise the printed (version, count) pairs are the first fewest- and first most-downloaded entries of `version_downloads`, the average is the total over the number of versions truncated, min <= average <= max, and the total counts every file |
| Package.FiguresExtremes | pypi_cli.py:109-110 | the printed extremes are exactly `min_version` and `max_version`: the first entry with the fewest and the first with the most downloads |
| Package.FiguresAverage | pypi_cli.py:113-114 | the printed average is `int(total / len(versions))`, between the extremes, and the printed total counts every file |
| Grouping.Digits | pypi_cli.py:167 | the decimal digits of n: at least one digit, and no leading zero unless the string is exactly "0" |
| Grouping.DigitsRoundTrip | pypi_cli.py:167 | reading the digits back gives n |
| Grouping.InsertCommasPositions | pypi_cli.py:167 | in `'{:,}'` output a comma stands exactly where the rest of the string is a multiple of four characters long, so the digits come in groups of three from the right |
| Grouping.GroupRoundTrip | pypi_cli.py:167 | `'{:,}'.format(n)` starts with the leading digit of `str(n)` (never a zero, except "0" itself), has its commas every three digits, and parses back to n |
| Grouping.GroupWidthMonotone | pypi_cli.py:167 | a larger count never has a narrower grouped form, so the widest value column is that of the largest count |
| BarGraph.Largest | pypi_cli.py:165-167 | `max` of a non-empty sequence is an element of it and bounds all of it |
| BarGraph.KeyWidth | pypi_cli.py:165 | the key width is at most the cap, at least `min(len(key), cap)` for every key, and equal to `min(len(key), cap)` for some key: together exactly the largest `min(len(key), cap)`, which is `min(max(len(key)), cap)` |
| BarGraph.MaxValue | pypi_cli.py:166 | `max_val` bounds every count and is one of them |
| BarGraph.ValueWidth | pypi_cli.py:167 | the value width fits every grouped count and equals the width of the largest count's |
| BarGraph.CeilDivBounds | pypi_cli.py:173 | `math.ceil(a / b)` for b > 0 is the q with (q - 1) * b < a <= q * b |
| BarGraph.BarLengthCeiling | pypi_cli.py:172-175 | a bar has no ticks when budget * count <= 0; otherwise it is the least n with budget * count <= n * max_val |
| BarGraph.BarWithinRoom | pypi_cli.py:169-175 | no bar is longer than the budget clamped at zero |
| BarGraph.BarOfLargest | pypi_cli.py:169-175 | a row holding the largest non-zero count gets exactly the clamped budget |
| BarGraph.BarMonotone | pypi_cli.py:172-175 | a larger count never gets a shorter bar |
| BarGraph.KeyColumn | pypi_cli.py:176-181 | the key column is exactly the key width wide, begins with the key cut to that width, and holds spaces after it |
| BarGraph.ValueColumnReads | pypi_cli.py:170-181 | the right-aligned value column, once its padding is trimmed, is the count's `'{:,}'` form and parses back to the count |
| BarGraph.LineColumns | pypi_cli.py:170-181 | each line is the cut key padded to the key width, `" [ "`, the count's `'{:,}'` form right-aligned in the value width (reading back as the count), `" ] "`, then only ticks, with the length of the columns plus the bar |
| BarGraph.RenderLines | pypi_cli.py:171-183 | splitting the graph on newlines gives exactly one line per entry, in mapping order, with no trailing newline, when no key holds a newline |
| BarGraph.RenderColumns | pypi_cli.py:170-183 | every line has its brackets in the same columns, and each value column is its entry's count in `'{:,}'` form, reading back as the count |
| BarGraph.LineWidth | pypi_cli.py:169-182 | a line is its columns plus at most the clamped budget: the full budget for the largest non-zero count, none for a zero count or a non-positive budget |
| BarGraph.RenderWidths | pypi_cli.py:165-183 | all lines are at least the column width and at most that plus the clamped budget; with a non-negative budget no line is longer than the terminal width less the margin; rows with the largest non-zero count fill the budget; an all-zero mapping or a non-positive budget draws no ticks |
| Text.SplitJoin | pypi_cli.py:183 | splitting `'\n'.join(lines)` on newlines gives the lines back when none contains a newline |
| Text.TrimPadLeft | pypi_cli.py:170 | trimming the spaces off a right-aligned field whose content does not start with a space gives the content back |
| Identifier.SpanName | pypi_cli.py:34 | the greedy `[-A-Za-z0-9.]+` match: every character in the span is a name character, and the span stops at the first one that is not |
| Identifier.MatchNameVersionComplete | pypi_cli.py:34-35 | every name, with or without a `/version`, is matched whole and gives back its name and version |
| Identifier.MatchNameVersionSound | pypi_cli.py:34-35 | a matched `name(/version)?` text is well formed and is exactly the name and version written out |
| Identifier.SplitPrefixComplete | pypi_cli.py:33 | a scheme, a host without `/`, then `/pypi/` are split off as exactly those parts |
| Identifier.SplitPrefixSound | pypi_cli.py:33 | a split prefix has an `http://` or `https://` scheme and a non-empty host without `/`, and the text is exactly scheme, host, `/pypi/` and the rest |
| Identifier.Body | pypi_cli.py:35 | `$` matches at the end or before one final newline |
| Identifier.ParseFormat | pypi_cli.py:33-35 | every well-formed identifier, written out with or without one final newline, matches and gives back its own groups |
| Identifier.ParseSound | pypi_cli.py:33-35 | anything that matches is a well-formed identifier written out, possibly followed by one newline |
| Identifier.StatTarget | pypi_cli.py:96-102 | the argument is skipped as invalid exactly when the pattern does not match it |
| Identifier.StatTargetOfFormat | pypi_cli.py:96-102 | `stat` uses the identifier's index, or `DEFAULT_PYPI` when it names none, and the name, and ignores the version |

## Left out

- Fetching the package JSON is not modelled, nor are `requests.Session` and the 404 → `NotFoundError` path (pypi_cli.py:201-206) and `abort_not_found` (pypi_cli.py:77-79). They are network I/O. The model starts from the decoded `releases` mapping.
- `lazy_property` memoisation (pypi_cli.py:150-159) is not modelled. Every property is a pure function of its input, and caching changes nothing observable.
- `version_dates` and `chart` (pypi_cli.py:231-253) are left out. They depend on `dateutil`, `time.strftime` and click's ANSI styling, which are foreign calls. `bargraph` itself is modelled for any cap on the key width; `BarGraph.RenderDefault` uses the default cap of 30 (pypi_cli.py:162).
- The click commands (pypi_cli.py:42-147) and their printing and browser launching are left out; they are user-interface I/O. Only the `PYPI_RE` match and the choice of index and name in `stat` (pypi_cli.py:96-102), plus the "no releases" guard (pypi_cli.py:109-113), are modelled.
- `get_terminal_size` (pypi_cli.py:168) is not called. The terminal width is a parameter of `BarGraph.Render`.
- The `downloads_last_*`, `package_url` and `home_page` accessors (pypi_cli.py:287-305) are left out. They are plain dictionary look-ups.
- Package.AverageDownloads: uses exact integer floor division for `int(downloads / len(versions))`. Python goes through a float, which can differ for totals beyond 2**53.
- BarGraph.BarLengthCeiling: uses exact integer ceiling division for `math.ceil(budget * value / max_val)`. The float path can differ only for products beyond 2**53.
- Package.AverageDownloads: requires at least one version. With none, Python raises `ZeroDivisionError`, which `stat` never reaches because of its guard.
- BarGraph.RenderWidths: requires a non-empty mapping, as do `Render` and `LayoutOf`. On an empty one, Python's `max()` raises `ValueError`.
- BarGraph.KeyColumn: a key width of 0 (a cap of 0, or only empty keys) gives the format spec `0`. Some Python versions reject it for strings. The model pads to width 0 instead.
- Releases.SortSorted: Python's `sorted` is timsort, while the model uses insertion sort. Releases.ReleaseInfoCharacterised shows that any stable sort by the same key yields the same listing.
- Package.Stat: models one package. The loop over several arguments, the printing and the widths of the printed figures are left out.
- Download counts are assumed non-negative (`nat`). Nothing in pypi_cli.py checks the sign of a file's `downloads`, and the index's JSON API can report `-1`. With negative counts, `int(total / n)` truncates a negative total toward zero and `bargraph` can see a negative `max_val`; neither case is modelled.
