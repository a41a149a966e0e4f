# Tire test data: change-point scan

A tire characterisation run records several channels at the same time steps:
normal force, inflation pressure, camber, slip angle, lateral force and others.
The rig holds three of them (camber, normal force, pressure) at set points.
`find_indices` in `libraries/tire_sim/tires.py` finds where one such channel moved
to a new set point. It scans the channel's column in index order against a
running reference reading, which starts as the first reading. A reading that
differs from the reference by strictly more than the channel's tolerance is a
change point: its index is recorded and the reference moves to that reading.
The tolerances come from the table `TOLERANCE`: camber 0.5, normal force 200,
pressure 25.

The model is one module, `Tires` (`tires.dfy`):

- `Channel`, `Name`, `ParseChannel` and `Tolerance` are the tolerance table.
  The string key of the source is parsed into one of three channels, and any
  other key is rejected.
- `ScanUpTo` is the reference semantics. It is a left fold over the first `n`
  readings that yields the recorded indices and the current reference.
  `ChangePoints` is the fold over the whole column.
- `IsChangePointList` is an independent description of the result. It says
  the list is strictly increasing, lies in `(0, length)`, and holds index `i`
  exactly when reading `i` is strictly further than the tolerance from the
  reference in force at `i`. That reference (`RefAt`) is the reading at the
  last listed index before `i`, or the first reading if there is none. The
  lemmas prove that `ChangePoints` meets the description
  (`ChangePointsCharacterised`) and that it is the only list that does
  (`ChangePointsUnique`).
- `FindIndices` is the source's loop as an imperative method. It appends to
  a sequence and moves a running reference, over an `array<real>` that it has
  no right to modify. Its postcondition ties the result to `ChangePoints` and
  to `IsChangePointList`, and it models the two failures as `Err` values:
  - An empty column fails when the first reading is read (`IndexError` in
    the source). Here that is `EmptyColumn`.
  - A key that is not in the table fails on lookup (`KeyError` in the
    source). Here that is `UnknownKey`. The source looks the key up while
    visiting index 0. That happens after the first reading is read
    (libraries/tire_sim/tires.py:35) and before anything observable, so the model looks the key up once, before the loop.

One property one might expect of this kind of scan does not hold: raising a
tolerance can raise the number of change points. A larger tolerance can keep
the reference at a reading that later readings keep straying from.
`ToleranceNotMonotone` gives a column where this happens.

## Model

| member | source | states |
|---|---|---|
| `Tires.ParseChannel` | libraries/tire_sim/tires.py:27-31 | a key is accepted exactly when it is `"camber"`, `"normal_force"` or `"pressure"`, and the accepted channel's table key is the key itself |
| `Tires.ParseName` | libraries/tire_sim/tires.py:27-31 | every channel's table key parses back to that channel |
| `Tires.Tolerance` | libraries/tire_sim/tires.py:27-31 | every threshold in the table is positive |
| `Tires.ScanUpTo` | libraries/tire_sim/tires.py:35-40 | the scan state (recorded indices, current reference) after the first `n` readings; every recorded index is below `n` |
| `Tires.ChangePoints` | libraries/tire_sim/tires.py:33-42 | the indices the scan records over the whole column, each below its length |
| `Tires.ChangePointAt` | libraries/tire_sim/tires.py:37-40 | for a list meeting the description, index `i` is listed exactly when reading `i` is strictly further than the tolerance from the reference in force at `i` |
| `Tires.FindIndices` | libraries/tire_sim/tires.py:33-42 | an empty column fails with `EmptyColumn`; otherwise an unknown key fails with `UnknownKey`; otherwise the result is `ChangePoints` of the column under the key's tolerance, meets `IsChangePointList`, has fewer entries than the column has readings, and the column is not modified |
| `Tires.FoundShape` | libraries/tire_sim/tires.py:35-38 | with a non-negative tolerance, the recorded indices strictly increase, none is 0, and after `n > 0` readings at most `n - 1` are recorded |
| `Tires.ReferenceIsLastFound` | libraries/tire_sim/tires.py:35-40 | the running reference is the reading at the last recorded index, or the first reading when none has been recorded |
| `Tires.ScanExtends` | libraries/tire_sim/tires.py:36-38 | visiting more readings only appends, and each appended index is at least the number of readings visited before |
| `Tires.RefAtIsScanReference` | libraries/tire_sim/tires.py:35-40 | the reference that the independent description assigns to index `i` equals the reference the scan holds on reaching `i` |
| `Tires.RecordedWhenVisited` | libraries/tire_sim/tires.py:37-38 | index `i` is in the result exactly when reading `i` is strictly further than the tolerance from the reference held on reaching it |
| `Tires.ChangePointsCharacterised` | libraries/tire_sim/tires.py:33-42 | the result is strictly increasing, lies in `(0, length)`, and contains `i` exactly when reading `i` is strictly further than the tolerance from the reading at the last earlier result index (or the first reading) |
| `Tires.ChangePointsUnique` | libraries/tire_sim/tires.py:33-42 | any list meeting that description is the result, so the description determines the output completely |
| `Tires.AgreeBelow` | libraries/tire_sim/tires.py:36-40 | a list meeting the description agrees, below every `n`, with what the scan records among the first `n` readings |
| `Tires.ChangePointCount` | libraries/tire_sim/tires.py:36-38 | a column has fewer change points than readings |
| `Tires.QuietPrefix` | libraries/tire_sim/tires.py:35-38 | while every reading stays within the tolerance of the first one, nothing is recorded and the reference stays at the first reading |
| `Tires.WithinToleranceNoChange` | libraries/tire_sim/tires.py:35-38 | a column whose readings all lie within the tolerance of the first one has no change points |
| `Tires.AtToleranceNotReported` | libraries/tire_sim/tires.py:37 | a camber deviation of exactly 0.5 is not a change point and one of 0.75 is: the comparison is strict |
| `Tires.NormalForceStep` | libraries/tire_sim/tires.py:29-42 | a normal-force column of five readings of -1600 then five of -1200 has the single change point 5 |
| `Tires.ToleranceNotMonotone` | libraries/tire_sim/tires.py:36-40 | on the column 0, 3, 5, 1, 5 the change points are [1] under tolerance 2.5 but [2, 3, 4] under tolerance 3.5 |

## Left out

- `show_data` (libraries/tire_sim/tires.py:44-49) only plots a column with matplotlib and marks the indices; it is drawing, not computation.
- The `print(val, curr_val)` inside the loop (libraries/tire_sim/tires.py:39) writes debug output and has no effect on the result.
- The `__main__` block (libraries/tire_sim/tires.py:53-71) loads a spreadsheet and a `.mat` file with pandas and scipy, picks channels out by key and plots them. That is file I/O through foreign libraries.
- Floating point is not modelled. Readings and tolerances are exact reals, so the threshold test is exact. The source compares floats, and its table mixes integers and floats.
- numpy array shapes are not modelled. `loadmat` returns n×1 arrays whose elements are one-element arrays. The model takes a column as a flat array of readings.
- Merging the three channels' change points into one sorted list, building segments, snapping values to nominal levels and filtering segments by slip sign and length are not part of this model. The source file has no code for any of them.
- Tolerance: its contract states only that every threshold is positive. The values 0.5, 200 and 25 are in its body, and `AtToleranceNotReported` and `NormalForceStep` use them.
