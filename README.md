# Flood-risk classification pipeline in Dafny

This project models the decision logic of a small flood-risk mapping pipeline.
The pipeline has two stages:

- The flood-inundation map generator (`FIMGenerator`) gives every river reach a
  depth severity class from 0 to 4. It uses a fixed table of four half-open
  depth ranges.
- The risk mapper (`RiskMapper`) keeps the flooded reaches and multiplies each
  one's severity class by a social vulnerability (SVI) score. It ranks the
  resulting coupled values into four risk levels by their quartiles (numpy's
  linear interpolation, right-inclusive `digitize`, clip to [1, 4]). Finally it
  counts the rows per level and turns the counts into percentages.

Modules:

- `wrappers.dfy`: `Option` (a column that is absent) and `Result` (an error the code raises).
- `fim_generator.dfy` (module `FimGenerator`): the depth class table and
  `_reclassify_depth`. `SeverityClassOf` is a reference definition written
  without the table. Lemmas tie the table's masks to it. `ReclassifyDepth` is
  the imperative copy-then-overwrite loop, proved against the reference.
- `quantiles.dfy` (module `Quantiles`): a sorted permutation of the sample and
  numpy's default `linear` quantile at 0.25, 0.5 and 0.75, computed over exact rationals.
- `risk_mapper.dfy` (module `RiskMapper`): `_combine_depth_and_svi`,
  `_classify_risk_levels` (in place, on an array) and `calculate_statistics`,
  with their properties.

The SVI score the source draws with `np.random.choice` is an explicit input,
`chosen`. It holds one score per flooded reach, and each score must be a value
of the SVI score column. Every property holds for every such choice.

The model keeps these behaviours of the code:

- An empty set of flooded reaches makes the code raise a `KeyError`, because
  the empty frame has no `coupled_risk_value` column. It does not return an
  empty result. `CombineDepthAndSvi` returns `Failure(MissingColumn(...))`.
- `calculate_statistics` on an empty frame divides by zero. It does not return
  zero percentages. `CalculateStatistics` returns `Failure(ZeroDivision)`.
- Depths are not validated. A negative depth simply gets class 0 / "None", and
  no invalid-input error is raised.
- Class 0 means a depth strictly below 0.0001. A depth of exactly 0.0001 is class 1.

## Model

| member | source | states |
|---|---|---|
| `FimGenerator.SeverityClassOf` | fim_generator.py:16-21 | the class is in 0..4; it is 0 exactly when the depth is below 0.0001; every depth at or above 1.8 is class 4 |
| `FimGenerator.SeverityName` | fim_generator.py:77-84 | the name is "None" exactly for class 0; for classes 1..4 it is the table's name for that class |
| `FimGenerator.TableContiguous` | fim_generator.py:16-21 | the table has four rows with ids 1..4 in order; each upper bound is the next row's lower bound; the last range is unbounded; the lowest bound is 0.0001 |
| `FimGenerator.InRangeIffClass` | fim_generator.py:80-84 | a depth lies in a row's mask (lower bound inclusive, upper exclusive) exactly when its reference class is that row's id |
| `FimGenerator.RangesDisjoint` | fim_generator.py:16-21 | no depth lies in two different ranges |
| `FimGenerator.RangesCover` | fim_generator.py:77-82 | every depth of at least 0.0001 lies in the range of its class; a smaller depth, 0 included, lies in none and keeps class 0 |
| `FimGenerator.LowerBoundInclusive` | fim_generator.py:17-20 | a depth equal to a class's lower bound gets that class and is outside the class below (0.4 is "Moderate", not "Low") |
| `FimGenerator.SeverityMonotone` | fim_generator.py:16-21 | the class never decreases as the depth grows |
| `FimGenerator.BoundaryExamples` | fim_generator.py:17-20 | 0.0001 and 0.39999 are "Low", 0.4 is "Moderate", 5.0 is "Very High", 0 is "None" |
| `FimGenerator.MaskedByTableClasses` | fim_generator.py:80-84 | applying table masks in any order, with repeats, leaves a row unchanged when none matches and otherwise gives it the reference class and name |
| `FimGenerator.MaskOrderIrrelevant` | fim_generator.py:80-84 | any ordering of the full class table gives every row the reference class and name, so the loop order does not matter |
| `FimGenerator.ReclassifyDepth` | fim_generator.py:72-93 | the output has the input's rows in order, with feature_id, discharge and depth unchanged, and each row has the reference class and its name; the input is not changed |
| `Quantiles.Insert` | risk_mapper.py:92 | inserting into a sorted sample keeps it sorted and adds exactly that element |
| `Quantiles.Sort` | risk_mapper.py:92 | the sorted sample is in ascending order and is a permutation of the sample |
| `Quantiles.SortOfSorted` | risk_mapper.py:92 | sorting a sample that is already in order returns it unchanged |
| `Quantiles.LinearAt` | risk_mapper.py:92 | the interpolated quantile lies between the two order statistics around its virtual index, and equals the lower one when the index is whole |
| `Quantiles.LinearAtMonotone` | risk_mapper.py:92 | a later virtual index never gives a smaller quantile |
| `Quantiles.LinearAtSameCell` | risk_mapper.py:92 | within one cell between two neighbouring order statistics, interpolation never decreases as the virtual index grows |
| `Quantiles.LinearAtLaterCell` | risk_mapper.py:92 | a virtual index in a later cell never gives a smaller quantile than one in an earlier cell |
| `Quantiles.Quartile` | risk_mapper.py:92 | each quartile lies between the sample's smallest and largest value |
| `Quantiles.QuartilesOrdered` | risk_mapper.py:92 | Q1 <= Q2 <= Q3 for a sorted sample |
| `Quantiles.Quartiles` | risk_mapper.py:92 | the three cut points are ordered and each lies between the minimum and the maximum of the sample |
| `Quantiles.AllTiesQuartiles` | risk_mapper.py:92 | when all values are equal, the three cut points are that value |
| `Quantiles.QuartilesOneToTen` | risk_mapper.py:92 | the values 1..10 have the quartiles 3.25, 5.5 and 7.75 |
| `RiskMapper.Flooded` | risk_mapper.py:61 | every selected reach has a severity class above 0, and there are no more of them than input rows |
| `RiskMapper.FloodedMembers` | risk_mapper.py:61 | a reach is selected exactly when it is in the input and its class is above 0 |
| `RiskMapper.FloodedSeverities` | risk_mapper.py:61 | reaches classified by the depth table give the combiner only classes 1..4 |
| `RiskMapper.FloodedKeepsOrder` | risk_mapper.py:61-66 | the selection keeps input order: selecting from a concatenation concatenates the selections |
| `RiskMapper.Digitize` | risk_mapper.py:94-98 | right-inclusive digitize: every bin before the index is below the value, and every bin from the index on is at or above it |
| `RiskMapper.Clip` | risk_mapper.py:100 | the result lies in [lo, hi]; a value already inside is unchanged, a value below lo becomes lo and a value above hi becomes hi |
| `RiskMapper.RiskLevel` | risk_mapper.py:94-100 | level 1 iff v <= Q1, level 2 iff Q1 < v <= Q2, level 3 iff Q2 < v <= Q3, level 4 iff v > Q3; always in 1..4 |
| `RiskMapper.RiskLevelMonotone` | risk_mapper.py:94-100 | a larger coupled value never gets a lower level |
| `RiskMapper.QuartileCuts` | risk_mapper.py:89-92 | the cut points are three ascending values, each between the minimum and maximum of the positive coupled values |
| `RiskMapper.Positive` | risk_mapper.py:89 | exactly the values above 0 are kept |
| `RiskMapper.PositiveKeepsRepeats` | risk_mapper.py:89 | every value above 0 is kept as many times as it occurs in the column, and no other value is kept |
| `RiskMapper.PositiveKeepsOrder` | risk_mapper.py:89 | masking a column in two parts and joining the results equals masking the whole column, so the kept values stay in row order |
| `RiskMapper.NoPositiveValues` | risk_mapper.py:89-91 | with no value above 0 there is nothing to rank |
| `RiskMapper.ClassifyRiskLevels` | risk_mapper.py:87-103 | if some value is positive, every row gets the level of its value against the quartiles of the positive values and that level's name, and nothing else changes; otherwise the frame is unchanged |
| `RiskMapper.LevellingKeepsColumns` | risk_mapper.py:94-101 | levelling keeps the feature_id, depth, severity and coupled value of every row, and leaves the frame levelled by its quartiles |
| `RiskMapper.CombineDepthAndSvi` | risk_mapper.py:55-85 | fails with a missing coupled_risk_value column exactly when no reach is flooded; otherwise gives one row per flooded reach in input order, with its feature_id, depth and severity name and coupled value class × chosen score; the rows are levelled by quartile, or left at level 0 with no name when no value is positive |
| `RiskMapper.CoupledValuesInRange` | risk_mapper.py:68 | with classes 1..4 and scores 1..16 every coupled value lies in [1, 64] |
| `RiskMapper.LevelMonotoneAcrossRows` | risk_mapper.py:92-100 | in one levelled frame a row with a larger coupled value never has a lower level |
| `RiskMapper.AllRowsRanked` | risk_mapper.py:101 | when some coupled value is positive, every row has a level in 1..4 and risk_name = RISK_LEVELS[level] |
| `RiskMapper.AllTiesSameLevel` | risk_mapper.py:89-100 | when all coupled values equal a positive c, every row is level 1, "Low Risk"; when c is not positive, levelling is skipped (level 0, no name) |
| `RiskMapper.OneToTenLevels` | risk_mapper.py:92-100 | for the values 1..10 the cut points are 3.25, 5.5 and 7.75, and the values 3, 4, 7, 10 get levels 1, 2, 3, 4 |
| `RiskMapper.CountLevel` | risk_mapper.py:111-114 | a level's count never exceeds the number of rows |
| `RiskMapper.CountLevelIsCardinality` | risk_mapper.py:111-114 | a level's count is the number of row indices at that level |
| `RiskMapper.CountsPartition` | risk_mapper.py:107-114 | when every row has a level in 1..4, the four counts add up to the number of rows |
| `RiskMapper.Percentage` | risk_mapper.py:117-120 | pct × total = count × 100, and a count within the total gives a percentage in [0, 100] |
| `RiskMapper.PercentagesSum` | risk_mapper.py:117-120 | four percentages of counts that add up to the total add up to 100 |
| `RiskMapper.CalculateStatistics` | risk_mapper.py:105-125 | fails with a division by zero exactly on an empty frame; otherwise the total is the row count, each count is the number of rows at its level, each percentage is that count divided by the total, times 100, and each percentage is in [0, 100] |
| `RiskMapper.StatisticsPartition` | risk_mapper.py:107-120 | on a non-empty frame ranked 1..4, the counts add up to the total and the percentages to 100 |
| `RiskMapper.CombinedStatistics` | risk_mapper.py:68-120 | a frame combined from flooded reaches (classes 1..4) and scores 1..16, then levelled, has every row ranked 1..4, and its statistics add up to the total and to 100% |

## Left out

- Depth simulation from discharge (`_simulate_depth_from_discharge`) is not modelled, because it raises a float to the power 0.4. Depths are inputs, and the [0, 5] clip on them plays no part in the model.
- Saving to CSV/JSON, timestamps, print statements and the severity `value_counts` logging are left out: they are I/O only.
- The visualiser, the discharge and SVI data generators (random data with time-based seeds) and the orchestration in main.py are not part of this model. The only thing carried over from the SVI generator is the assumption that scores are in 1..16, and only `CoupledValuesInRange` and `CombinedStatistics` use it.
- The randomness of `np.random.choice` is left out; it is the explicit `chosen` input instead. With an empty SVI column and at least one flooded reach, the code raises a `ValueError`. The model has no such case, because no valid `chosen` input exists then.
- Floating point is not modelled: depths, quantiles and percentages are exact reals, and NaN or infinite depths are not modelled. So the percentages add up to exactly 100, and the quartiles are the exact linear interpolation.
- `np.digitize` finds its index by binary search. `Digitize` scans from the front instead, and it is specified by the same index (the first bin at or above the value).
- `np.quantile` partitions the sample rather than sorting it, but reads the same order statistics; `Sort` is a functional insertion sort, specified as the sorted permutation.
- Column-wise pandas operations are modelled row by row. A column that is absent (`risk_name` before levelling) is `None` in every row.
