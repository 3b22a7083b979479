# pyroglyph: block rendering and the example's duration text, in Dafny

pyroglyph draws a text dashboard in a terminal from named blocks. This project models the
two pure computations of its source:

- `Block.render` (module `Pyroglyph`, file `block.dfy`). A block is a title and an ordered
  list of content lines. Rendering at a given `width` with four border flags produces these
  lines in order:
  - an optional top rule of `.` characters;
  - an optional title line: the left marker, then the bolded title left-justified to the
    inner width, then the right marker;
  - one framed line per content line, in order;
  - an optional bottom rule.

  The left marker is `": "` or `" "`, the right marker is `" :"` or `" "`. The inner width
  is `width` minus the two markers' lengths. The terminal's `bold` is a function parameter
  about which nothing is assumed.
- `duration_tuple` and `duration_str` of `example.py` (module `Example`, file
  `duration.dfy`). The first splits a number of seconds into `(secs, mins, hours, days)`
  with three floor `divmod`s. The second writes `DD d HH h MM m SS s`, each field
  right-aligned in at least two columns.

Supporting modules: `Wrappers` (`Option`, `Result`), `Text` (Python's `ljust`, right
alignment, `lstrip` and `n * c`) and `Decimal` (`str(int)` and a parser for it).

Python semantics kept exactly:
- `width * '.'` is empty for a width below one.
- `str.ljust` and format widths pad and never truncate.
- The title goes through `str.ljust`, which accepts a negative width.
- Content lines go through the format spec `' <{iw}'`. When `iw` is negative that spec
  reads as a sign followed by a width, and Python raises `ValueError`. So `Render` returns
  `Failure` exactly when the inner width is negative and there is at least one content
  line.
- Python's `divmod` by a positive divisor floors, as Dafny's `/` and `%` do. Negative
  inputs therefore give a negative day count with hours, minutes and seconds still in
  range.
- `{v:2d}` writes a `-` sign for negative values and is never truncated.

Every operation is a pure function of its arguments. Rendering the same block twice with
the same arguments therefore gives the same lines, and the block is never changed.

Three consequences of the code are worth stating plainly:
- The title and the contents (`Optional[str]`, `Sequence[str]`) are read when `render` is
  called; the model takes their values at that call.
- A content line longer than the inner width is not cut: it makes its output line wider
  than `width` (`ContentLineShape`).
- Rendering fails on a negative inner width when there is at least one content line. With
  no content lines it returns lines even then.

## Model

| member | source | states |
|---|---|---|
| Text.Repeat | pyroglyph/__init__.py:27 | `n * c` has `max(0, n)` characters, all equal to `c` |
| Text.Ljust | pyroglyph/__init__.py:36 | `ljust(w)` keeps the string as a prefix, pads only with spaces, and has length `max(len, w)`, so it never truncates |
| Text.Rjust | example.py:22 | right alignment keeps the string as a suffix, pads only with spaces in front, and has length `max(len, w)` |
| Text.LstripRjust | example.py:22 | stripping the leading spaces of a right-aligned field gives the original text back |
| Pyroglyph.InnerWidth | pyroglyph/__init__.py:28-30 | with the markers `LeftMarker` (`": "` or `" "`) and `RightMarker` (`" :"` or `" "`), the inner width is `width-4` with both side borders, `width-2` with neither, `width-3` with one |
| Pyroglyph.Rule | pyroglyph/__init__.py:27 | the rule is `max(0, width)` dots |
| Pyroglyph.PadField | pyroglyph/__init__.py:40 | the per-line format fails exactly for a negative inner width; otherwise the line is a prefix of the result and is followed only by spaces |
| Pyroglyph.ContentLines | pyroglyph/__init__.py:40 | one framed line per content line, same count and same order; fails exactly when there is a line and the inner width is negative |
| Pyroglyph.Render | pyroglyph/__init__.py:15-44 | render fails exactly when there is a content line and the inner width is negative; otherwise the line count is top + title + contents + bottom, where a title counts when `HasTitle` (not `None`, not empty, as in the truthiness test at line 35) and `Assemble` puts the parts together in the order of lines 32-42 |
| Pyroglyph.RenderIsLayout | pyroglyph/__init__.py:25-44 | the rendered lines satisfy the line-by-line layout: top rule first, then the title line (`TitleLine`: left marker, bolded `ljust` title, right marker, lines 36-37), then content line `i` (`ContentLine`: left marker, padded text, right marker, line 40) at its offset, bottom rule last |
| Pyroglyph.LayoutIsRender | pyroglyph/__init__.py:25-44 | any sequence of lines with that layout equals the rendered one, so the layout describes render completely |
| Pyroglyph.RuleLinesExactly | pyroglyph/__init__.py:27-42 | for every width, including widths where the rule is empty, a line equals the rule if and only if it is the first line with a top border or the last line with a bottom border |
| Pyroglyph.ContentLineShape | pyroglyph/__init__.py:40 | content line `i` is the left marker, `contents[i]` intact, spaces, then the right marker; it is `width` wide when the text fits and wider when it does not |
| Pyroglyph.FixedWidth | pyroglyph/__init__.py:30-42 | with a non-negative inner width and all content fitting, every rule and content line is exactly `width` wide, and so is the title line when the title fits and bold keeps its length |
| Pyroglyph.DefaultRender | pyroglyph/__init__.py:18-22 | with the default width 80 and all borders, render never fails, the inner width is 76, the first and last lines are 80 dots, and every content line of at most 76 characters is framed to exactly 80 columns |
| Decimal.NatToString | example.py:22 | the numeral is non-empty digits without leading zeros; it has one digit below 10 and at most two below 100 |
| Decimal.ParseNatToString | example.py:22 | parsing the numeral of `n` gives back `n` |
| Decimal.IntToString | example.py:22 | the text starts with `-` exactly for negative values, never with a space; after the optional sign it is a non-empty run of digits without leading zeros (the canonical numeral); it fits two columns exactly for values in (-10, 100) |
| Decimal.ParseIntToString | example.py:22 | parsing the text of any integer gives the integer back |
| Example.DurationTuple | example.py:12-17 | the parts recombine to the input; seconds and minutes are in [0, 60) and hours in [0, 24) for every integer; days are non-negative exactly for non-negative input; input below a day has zero days and input below a minute is `(n, 0, 0, 0)` |
| Example.DurationTupleOfTotal | example.py:12-17 | splitting the total of any normalized tuple gives that tuple back, so the split is the unique normalized one |
| Example.Field | example.py:22 | `{v:2d}` has length `max(2, len(str(v)))`, is exactly two columns for values in (-10, 100), and strips back to `str(v)` |
| Example.DurationStr | example.py:20-22 | the text is `Join` of the four fields: days, hours, minutes and seconds each strip back to `str` of the part, so each field is `str(v)` after leading spaces; the text has length `17 + max(2, len(str(days)))` and ends with the separators ` d `, ` h `, ` m `, ` s` at fixed offsets from its end; it is at least 19 characters and exactly 19 for input in [-9 days, 100 days) |
| Example.ParseDurationStrRoundTrip | example.py:20-22 | reading the text back field by field, in the order days, hours, minutes, seconds, gives the tuple of the input |

## Left out

- `Window`, its two-column composition, the refresh loop, threads, frame-rate sleep and the
  open/close lifecycle: none of it is in `pyroglyph/__init__.py`, which defines only
  `Block`.
- `Block` is an ordinary mutable class: its fields can be reassigned and `contents` can be
  a list the caller changes between calls. The model treats a block as an immutable
  record, so such changes between calls are outside it.
- `pyroglyph/exceptions.py`: empty exception classes with no logic.
- `blessed.Terminal`: `bold` is a function parameter. The model makes no claim about the
  escape sequences it adds or about the length of the bolded title.
- Pyroglyph.FixedWidth: claims the title line's width only when `bold` keeps the length of
  its argument, because the terminal library's output is not part of this model.
- The script part of `example.py` (`contents`, `title`, the `Window` and the sleep): it
  reads the wall clock and builds a `Window`, which is not part of this model.
- Example.DurationTuple: takes an integer. The `int(secs)` truncation of a float argument
  is not modelled, because floating point is left out.
- `setup.py`: packaging metadata and file reading.
