# Eneroth SVG Exporter, modelled in Dafny

This project models the core of the SketchUp extension `ene_svg_exporter`, which writes a top view of the selected entities to an SVG file. It covers four parts of the extension:

- **`Scale`** (`vendor/scale.rb`): a drafting scale.
  - It parses "1:100", "1/100", "10%", "2,5", "~1:42" and "1\" = 4 m" into a factor.
  - Validity is the only error channel.
  - Comparison tolerates differences up to 1e-10.
  - It rounds to conventional coefficients {1, 2, 5, 10} x 10^n downwards, to nearest and upwards.
  - It formats back to "N:1" / "1:N", marked "~" when the text is not exact.
- **`InstancePathHelper`**: the material, colour and visibility an entity inherits along its instance path.
- **`Traverser`**: the pre-order walk over the model hierarchy.
  - It visits siblings sorted by the lowest z of their bounds.
  - It skips invisible entities with everything below them.
  - It descends only into groups and component instances.
- **`Exporter`**: the SVG text.
  - It covers the colour hex code, the path data built from a face's loops, the `<path>` elements, the opening and closing tags, and the document.
  - It also covers the rule that the scale remembered between exports is only replaced by a valid one.

Modules, one per source file, plus property modules:

| module | file | models |
|---|---|---|
| `Wrappers` | wrappers.dfy | `Option`, `Result` |
| `Text` | text.dfy | digit text, `Integer#to_s`, `String#to_f` on decimal text |
| `Scene` | scene.dfy | entities, materials, colours, points, instance paths |
| `Scales` | scale.dfy | `vendor/scale.rb`: parsing, comparison, rounding, formatting, and the class `Scale` |
| `ScaleRounding` | rounding.dfy | properties of rounding |
| `ScaleProperties` | scale_properties.dfy | properties of parsing, comparison and formatting |
| `InstancePathHelper` | instance_path_helper.dfy | `instance_path_helper.rb` |
| `Traverser` | traverser.dfy | `traverser.rb` |
| `Exporter` | exporter.dfy | `exporter.rb`, with the class `ExportSession` for the module state `@scale` |

How the model is shaped:

- `round!`, `ceil!` and `floor!` update `@factor` and `@source_string` in place, so they are methods of the class `Scale`. Like `round!`, which returns `self`, they return the receiver itself (`r == this`). The copying `round`, `ceil` and `floor` duplicate the receiver and return what rounding the copy returns.
- `svg_path` and `svg_content` build their text step by step, so they are methods with loops. They are proved equal to the functions `PathElement` and `Content`, and the properties are lemmas about those functions.
- The traversal's `yield` is modelled as the sequence of yielded paths (`Walk`). It is proved equal to an independent description of which paths are yielded (`Reaches`).

## Model

| member | source | states |
|---|---|---|
| Scales.Valid | src/ene_svg_exporter/vendor/scale.rb:188-190 | definition of `valid?` on a factor: present, finite and non-zero; properties in Scales.Scale.Factor and ScaleProperties.ParseDecimalValid |
| Scales.Normalize | src/ene_svg_exporter/vendor/scale.rb:205 | no "~" or "," remains and the text does not grow; what happens to each character is stated in ScaleProperties.NormalizeChar and ScaleProperties.NormalizeJoin |
| Scales.NumberForm | src/ene_svg_exporter/vendor/scale.rb:206-211 | definition of the three number grammars, tried in order; properties in ScaleProperties.ParseDecimal, ParsePercent, ParseRatio and ParseNumberForm |
| Scales.Strip | src/ene_svg_exporter/vendor/scale.rb:213 | definition of `String#strip`: leading and trailing whitespace removed; used in ScaleProperties.ParseDimension |
| Scales.DimensionForm | src/ene_svg_exporter/vendor/scale.rb:212-213 | definition of the "a = b" grammar: the stripped sides read by the length parser and divided, nil when either is not a length; properties in ScaleProperties.ParseDimension and ParseImperialExample |
| Scales.Parse | src/ene_svg_exporter/vendor/scale.rb:204-218 | definition of `parse`: normalise, try the number grammars, then the dimension grammar, nil when none matches; properties in the ScaleProperties.Parse* rows |
| Scales.Divide | src/ene_svg_exporter/vendor/scale.rb:209-213 | a float division yields a valid factor exactly when both operands are non-zero, and the quotient times the divisor is the dividend |
| Scales.LastEquals | src/ene_svg_exporter/vendor/scale.rb:212 | the greedy `^(.+)\=(.+)$` splits at the last '=' that leaves both sides non-empty |
| Scales.CompareFactors | src/ene_svg_exporter/vendor/scale.rb:45-52 | nil unless both scales are valid; 0 exactly when the factors are within 1e-10; otherwise -1 or 1 by the factors' order |
| Scales.Scale.CompareTo | src/ene_svg_exporter/vendor/scale.rb:45-52 | nil when the other value is not a Scale; otherwise the factor comparison |
| Scales.Scale.Factor | src/ene_svg_exporter/vendor/scale.rb:92-94 | the factor is returned exactly when it is present, finite and non-zero (`valid?`, lines 188-190), and nil otherwise |
| Scales.Scale.FromNumber | src/ene_svg_exporter/vendor/scale.rb:31-38 | a scale built from a number holds that factor and no source text |
| Scales.Scale.FromText | src/ene_svg_exporter/vendor/scale.rb:31-38 | a scale built from text holds the parsed factor, and `to_s` returns the text verbatim |
| Scales.Scale.Dup | src/ene_svg_exporter/vendor/scale.rb:63-65 | `dup` copies the factor and the source text |
| Scales.Scale.IsValid | src/ene_svg_exporter/vendor/scale.rb:188-190 | definition of `valid?` on the scale's factor (Scales.Valid) |
| Scales.Scale.ToS | src/ene_svg_exporter/vendor/scale.rb:180-182 | definition of `to_s`: the source text while there is one, else `format`; properties in Scales.Scale.FromText and Scales.Scale.RoundInPlace |
| Scales.RoundHalfAway | src/ene_svg_exporter/vendor/scale.rb:128-130 | definition of `Float#round`; characterised in ScaleProperties.RoundHalfAwayNearest |
| Scales.FormatText | src/ene_svg_exporter/vendor/scale.rb:126-131 | definition of the "N:1" / "1:N" text; properties in ScaleProperties.FormatTextShape, FormatWhole and FormatReciprocal |
| Scales.FormatFactor | src/ene_svg_exporter/vendor/scale.rb:125-135 | definition of `format` on a factor; properties in ScaleProperties.FormatTextShape, FormatMarksApproximation, FormatWhole, FormatReciprocal and FormatApproximateExample |
| Scales.Scale.Format | src/ene_svg_exporter/vendor/scale.rb:125-135 | definition of `format` on the scale's factor (Scales.FormatFactor) |
| Scales.RoundToTarget | src/ene_svg_exporter/vendor/scale.rb:237-248 | definition of `round_to_target`: the nearest target value for direction 0, the greatest at most the number for -1, the least at least it for 1, nil for any other direction; properties in Scales.NearestIndex, GreatestAtMost, LeastAtLeast and SnapWithinDecade, and ScaleRounding.SnapFixed |
| Scales.SnapToTarget | src/ene_svg_exporter/vendor/scale.rb:163-169 | the rounding step keeps a positive number positive; properties in ScaleRounding.SnapShape, SnapDirection, SnapStable and SnapFixedPoint |
| Scales.RoundedFactor | src/ene_svg_exporter/vendor/scale.rb:153-174 | the factor `round!` leaves is positive; properties in ScaleRounding.RoundedIsConventional, RoundedDirection and RoundIdempotent, and Scales.Scale.RoundInPlace |
| Scales.Split | src/ene_svg_exporter/vendor/scale.rb:231-235 | `split_number` yields a coefficient in [1, 10) and an exponent with coefficient x 10^exponent equal to the number |
| Scales.NearestIndex | src/ene_svg_exporter/vendor/scale.rb:242 | `min_by` picks a target value at least as near as every other, and the first such in list order |
| Scales.GreatestAtMost | src/ene_svg_exporter/vendor/scale.rb:244 | the greatest target value <= the number, and nil exactly when there is none |
| Scales.LeastAtLeast | src/ene_svg_exporter/vendor/scale.rb:246 | the least target value >= the number, and nil exactly when there is none |
| Scales.SnapWithinDecade | src/ene_svg_exporter/vendor/scale.rb:163-164 | with 1 and 10 in the target, every coefficient rounds to a value in [1, 10] in every direction |
| Scales.Scale.RoundInPlace | src/ene_svg_exporter/vendor/scale.rb:153-174 | `round!` replaces the factor by the rounded factor and clears the source text, so that `to_s` afterwards is `format`; it returns the receiver itself |
| Scales.Scale.CeilInPlace | src/ene_svg_exporter/vendor/scale.rb:76-78 | `ceil!` rounds upwards, clears the source text and returns the receiver |
| Scales.Scale.FloorInPlace | src/ene_svg_exporter/vendor/scale.rb:118-120 | `floor!` rounds downwards, clears the source text and returns the receiver |
| Scales.Scale.Round | src/ene_svg_exporter/vendor/scale.rb:143-145 | `round` returns a new rounded scale without source text; the receiver is left unchanged |
| Scales.Scale.Ceil | src/ene_svg_exporter/vendor/scale.rb:63-65 | `ceil` returns a new scale rounded upwards; the receiver is left unchanged |
| Scales.Scale.Floor | src/ene_svg_exporter/vendor/scale.rb:105-107 | `floor` returns a new scale rounded downwards; the receiver is left unchanged |
| ScaleRounding.SplitOfShift | src/ene_svg_exporter/vendor/scale.rb:231-235 | splitting c x 10^e, with c in [1, 10), gives back (c, e) |
| ScaleRounding.SnapFixed | src/ene_svg_exporter/vendor/scale.rb:237-248 | a number that is itself a target value rounds to itself in every direction |
| ScaleRounding.SnapFixedPoint | src/ene_svg_exporter/vendor/scale.rb:163-169 | a target value times 10^e is left unchanged by the rounding step |
| ScaleRounding.SnapShape | src/ene_svg_exporter/vendor/scale.rb:163-169 | for a factor >= 1 the result is the rounded coefficient times 10^exponent, with exponent >= 0 and result >= 1 |
| ScaleRounding.RoundedIsConventional | src/ene_svg_exporter/vendor/scale.rb:153-174 | the rounded factor is a target value times 10^e, or for a factor below 1 the inverse of one |
| ScaleRounding.SnapDirection | src/ene_svg_exporter/vendor/scale.rb:163-169 | for a factor >= 1, rounding up never lowers it and rounding down never raises it |
| ScaleRounding.RoundedDirection | src/ene_svg_exporter/vendor/scale.rb:159-171 | `ceil` never lowers the factor and `floor` never raises it, also below 1 where the inverse is rounded the opposite way |
| ScaleRounding.SnapStable | src/ene_svg_exporter/vendor/scale.rb:163-169 | a rounded factor >= 1 stays put when rounded again, in any direction |
| ScaleRounding.RoundIdempotent | src/ene_svg_exporter/vendor/scale.rb:153-174 | rounding an already rounded scale again, with the same target and direction, changes nothing |
| ScaleRounding.InverseStable | src/ene_svg_exporter/vendor/scale.rb:159-171 | the inverse of a value that rounds to itself both ways also rounds to itself |
| ScaleRounding.CommonCoversDecade | src/ene_svg_exporter/vendor/scale.rb:7 | the common factors [1, 2, 5, 10] contain 1 and 10 |
| ScaleRounding.CommonSnapsNearTwo | src/ene_svg_exporter/vendor/scale.rb:240-247 | among the common factors, a coefficient strictly between 2 and 3.5 rounds down to 2, up to 5 and to nearest 2 |
| ScaleRounding.ExampleSplit | src/ene_svg_exporter/vendor/scale.rb:231-235 | 1 / 0.0456 splits into a coefficient of about 2.19 and exponent 1 |
| ScaleRounding.ExampleSnaps | src/ene_svg_exporter/vendor/scale.rb:163-169 | 21.93 rounds down to 20, up to 50 and to nearest 20 |
| ScaleRounding.RoundExample | src/ene_svg_exporter/vendor/scale.rb:153-174 | `ceil` of 0.0456 is 0.05 (1:20), `floor` is 0.02 (1:50), and `round` is 0.05 |
| ScaleProperties.NormalizeIdentity | src/ene_svg_exporter/vendor/scale.rb:205 | text with no "~" or "," is not changed by the normalisation |
| ScaleProperties.NormalizeJoin | src/ene_svg_exporter/vendor/scale.rb:205 | the normalisation works character by character: normalising a + b gives the normalised a followed by the normalised b |
| ScaleProperties.NormalizeChar | src/ene_svg_exporter/vendor/scale.rb:205 | a single "~" is deleted, a "," becomes ".", and any other character is kept |
| ScaleProperties.ParseIgnoresTilde | src/ene_svg_exporter/vendor/scale.rb:205 | a leading "~" does not change what a text denotes |
| ScaleProperties.ParseDropsTilde | src/ene_svg_exporter/vendor/scale.rb:205 | a "~" anywhere in the text does not change what it denotes |
| ScaleProperties.ParseCommaIsPoint | src/ene_svg_exporter/vendor/scale.rb:205 | a "," anywhere in the text denotes what a "." there does |
| ScaleProperties.ParseWithoutEquals | src/ene_svg_exporter/vendor/scale.rb:212-213 | the host's length parser is consulted only for a text that holds '=' |
| ScaleProperties.ParseDecimal | src/ene_svg_exporter/vendor/scale.rb:206-207 | a plain decimal denotes its value |
| ScaleProperties.ParsePercent | src/ene_svg_exporter/vendor/scale.rb:208-209 | "n%" denotes n / 100 |
| ScaleProperties.ParseNumberForm | src/ene_svg_exporter/vendor/scale.rb:204-211 | the number grammars are tried in order, before the dimension grammar |
| ScaleProperties.ParseRatio | src/ene_svg_exporter/vendor/scale.rb:210-211 | "a:b" and "a/b" denote a / b, and a zero side gives no valid scale |
| ScaleProperties.ParseDimension | src/ene_svg_exporter/vendor/scale.rb:212-213 | "a = b" that no number grammar matches, split at its last "=", denotes the quotient of the lengths of the normalised and stripped sides, and nil when either side is not a length |
| ScaleProperties.ParseImperialExample | src/ene_svg_exporter/vendor/scale.rb:210-213 | 1/4"=1' is not taken for a ratio and reads as the quotient of the lengths 1/4" and 1' |
| ScaleProperties.ParseUnmatched | src/ene_svg_exporter/vendor/scale.rb:204-214 | a text without "=" that no number grammar matches yields nil, so the scale is invalid |
| ScaleProperties.ParseDecimalValid | src/ene_svg_exporter/vendor/scale.rb:206-207 | a plain decimal is a valid scale exactly when one of its digits is not zero, so "", "0" and "." are invalid |
| ScaleProperties.ParseNatRatio | src/ene_svg_exporter/vendor/scale.rb:210-211 | the "N:M" texts `format` writes denote N / M |
| ScaleProperties.ParseRatioExample | src/ene_svg_exporter/vendor/scale.rb:210-211 | "1:100" and "1/100" denote 0.01 |
| ScaleProperties.ParseZeroDenominatorExample | src/ene_svg_exporter/vendor/scale.rb:210-211 | "5:0" gives a non-finite, invalid factor |
| ScaleProperties.ParseApproximateExample | src/ene_svg_exporter/vendor/scale.rb:205-211 | "~1:42" denotes 1/42 |
| ScaleProperties.ParsePercentExample | src/ene_svg_exporter/vendor/scale.rb:206-209 | "10%" denotes 0.1 |
| ScaleProperties.ParseEmptyExample | src/ene_svg_exporter/vendor/scale.rb:206-207 | "" parses to 0, an invalid factor |
| ScaleProperties.ParseCommaExample | src/ene_svg_exporter/vendor/scale.rb:205-207 | "2,5" denotes 2.5 |
| ScaleProperties.CompareAntisymmetric | src/ene_svg_exporter/vendor/scale.rb:45-52 | swapping the operands negates the comparison, and a valid scale compares equal to itself |
| ScaleProperties.RoundHalfAwayNearest | src/ene_svg_exporter/vendor/scale.rb:128-130 | `Float#round` is the one integer within 1/2 of its argument, a half going away from zero: in (x - 1/2, x + 1/2] for x >= 0 and in [x - 1/2, x + 1/2) for x < 0 |
| ScaleProperties.RoundHalfAwayWhole | src/ene_svg_exporter/vendor/scale.rb:128 | `Float#round` of a whole number is that number |
| ScaleProperties.FormatTextShape | src/ene_svg_exporter/vendor/scale.rb:125-135 | `format` is the "N:1" / "1:N" text, with or without one leading "~" |
| ScaleProperties.FormatMarksApproximation | src/ene_svg_exporter/vendor/scale.rb:132 | `format` starts with "~" exactly when its text, parsed back, does not compare equal to the scale |
| ScaleProperties.FormatWhole | src/ene_svg_exporter/vendor/scale.rb:126-128 | a whole factor n >= 2 formats as "n:1" with no "~" |
| ScaleProperties.FormatReciprocal | src/ene_svg_exporter/vendor/scale.rb:129-130 | the factor 1/n formats as "1:n" with no "~", and 1 formats as "1:1" |
| ScaleProperties.FormatApproximateExample | src/ene_svg_exporter/vendor/scale.rb:125-135 | 1:42.3 formats as "~1:42" |
| InstancePathHelper.ResolveMaterial | src/ene_svg_exporter/instance_path_helper.rb:29-35 | nil exactly when no entity of the path has a material |
| InstancePathHelper.NearestMaterialWins | src/ene_svg_exporter/instance_path_helper.rb:29-35 | the result is the material of the entity nearest the leaf that has one |
| InstancePathHelper.LeafMaterialWins | src/ene_svg_exporter/instance_path_helper.rb:30-31 | a leaf with a material shows it, whatever its ancestors hold |
| InstancePathHelper.MaterialInherited | src/ene_svg_exporter/instance_path_helper.rb:30-34 | a leaf without a material inherits the material resolved for its ancestors |
| InstancePathHelper.ResolveColor | src/ene_svg_exporter/instance_path_helper.rb:16-21 | the default face colour when no entity has a material, and the leaf's own colour when it has a material |
| InstancePathHelper.NearestColorWins | src/ene_svg_exporter/instance_path_helper.rb:16-21 | the colour is that of the nearest material towards the leaf |
| InstancePathHelper.ResolveVisibility | src/ene_svg_exporter/instance_path_helper.rb:43-50 | true exactly when every entity of the path is unhidden and on a visible layer |
| InstancePathHelper.VisibilityOfJoin | src/ene_svg_exporter/instance_path_helper.rb:43-50 | a joined path is visible exactly when both parts are |
| InstancePathHelper.VisibilityOfExtension | src/ene_svg_exporter/instance_path_helper.rb:44-49 | extending a path can turn it invisible, never visible again |
| InstancePathHelper.VisibilityOfPrefix | src/ene_svg_exporter/instance_path_helper.rb:44-49 | every prefix of a visible path is visible |
| InstancePathHelper.VisibilityOfSingle | src/ene_svg_exporter/instance_path_helper.rb:44-49 | a one-entity path depends only on that entity's own hidden flag and layer |
| Traverser.IsInstance | src/ene_svg_exporter/traverser.rb:37-39 | definition of `instance?`: groups and component instances; used in Traverser.Reaches and ReachesShape |
| Traverser.Walk | src/ene_svg_exporter/traverser.rb:23-34 | definition of the yielded paths, in order; properties in Traverser.WalkExact, WalkPreOrder, WalkSiblingOrder and WalkIgnoresWysiwyg |
| Traverser.VisitEach | src/ene_svg_exporter/traverser.rb:25-33 | definition of the loop over the sorted siblings still to visit; properties through the same lemmas as Traverser.Walk |
| Traverser.InsertByMinZ | src/ene_svg_exporter/traverser.rb:25 | inserting into a sorted sequence keeps it sorted by min-z and adds exactly that entity |
| Traverser.SortByMinZ | src/ene_svg_exporter/traverser.rb:25 | the siblings, sorted by min-z, as a permutation of the input |
| Traverser.Traverse | src/ene_svg_exporter/traverser.rb:15-19 | without a block, `ArgumentError` "No block given." and nothing visited; with one, exactly the reachable paths, and nothing for an empty collection |
| Traverser.WalkSound | src/ene_svg_exporter/traverser.rb:23-34 | every yielded path is one that `Reaches` describes |
| Traverser.WalkComplete | src/ene_svg_exporter/traverser.rb:23-34 | every path that `Reaches` describes is yielded |
| Traverser.WalkExact | src/ene_svg_exporter/traverser.rb:23-34 | the yielded paths are exactly the paths `Reaches` describes |
| Traverser.ReachesShape | src/ene_svg_exporter/traverser.rb:26-32 | a yielded path extends the backtrace by at least one entity of the walked collection, is visible as a whole, and goes down only through groups and component instances |
| Traverser.ReachesParent | src/ene_svg_exporter/traverser.rb:26-32 | the parent path of a yielded path, that path minus its last entity, is yielded too |
| Traverser.InvisibleSkipped | src/ene_svg_exporter/traverser.rb:27-32 | every yielded path is visible, and nothing below an invisible path is yielded |
| Traverser.WalkPreOrder | src/ene_svg_exporter/traverser.rb:29-32 | a container's path is yielded before the paths inside it |
| Traverser.AncestorsFirst | src/ene_svg_exporter/traverser.rb:29-32 | every ancestor path of a yielded path is yielded before it |
| Traverser.WalkSiblingOrder | src/ene_svg_exporter/traverser.rb:25 | at each level, the sibling a yielded path goes through never has a lower min-z than the one of an earlier path |
| Traverser.WalkIgnoresWysiwyg | src/ene_svg_exporter/traverser.rb:23-32 | the result is the same for `wysiwyg` true and false |
| Exporter.HexDigit | src/ene_svg_exporter/exporter.rb:177 | definition of one lower-case digit of `format("%02x")`; properties in Exporter.FormatColor and ColorRoundTrip |
| Exporter.Format02x | src/ene_svg_exporter/exporter.rb:177 | `format("%02x", c)` is two characters; their values are stated in Exporter.FormatColor |
| Exporter.Upcase | src/ene_svg_exporter/exporter.rb:177 | `upcase` keeps the length and maps each character on its own |
| Exporter.FormatColor | src/ene_svg_exporter/exporter.rb:176-178 | "#" and six upper-case hex digits; each pair reads back as the red, green or blue channel; alpha is dropped |
| Exporter.ColorRoundTrip | src/ene_svg_exporter/exporter.rb:176-178 | parsing the colour text gives back red, green and blue |
| Exporter.ColorTextUnique | src/ene_svg_exporter/exporter.rb:176-178 | every "#RRGGBB" upper-case text is the colour text of the channels it reads as, whatever the alpha |
| Exporter.LineTo | src/ene_svg_exporter/exporter.rb:134-135 | definition of "L x y" for one vertex; properties in Exporter.LineToCounts and LineCommands |
| Exporter.Join | src/ene_svg_exporter/exporter.rb:136 | definition of `Array#join`; properties in Exporter.LoopCounts and LoopDataStart |
| Exporter.LoopData | src/ene_svg_exporter/exporter.rb:133-138 | definition of one loop's path data; properties in Exporter.LoopDataStart and LoopCounts |
| Exporter.PathData | src/ene_svg_exporter/exporter.rb:132-148 | definition of the `d` text, the loops' data one after another; properties in Exporter.PathCounts and SvgPath |
| Exporter.PathElement | src/ene_svg_exporter/exporter.rb:132-151 | definition of the `<path>` element; properties in Exporter.PathElementAttributes, PathElementLines and SvgPath |
| Exporter.LineCommands | src/ene_svg_exporter/exporter.rb:133-136 | one command per vertex, command i being "L x y" with the coordinates of vertex i at its place on paper |
| Exporter.LoopDataStart | src/ene_svg_exporter/exporter.rb:133-138 | a loop's data starts with "M x y", the coordinates of its first vertex at its place on paper |
| Exporter.ReplaceFirst | src/ene_svg_exporter/exporter.rb:138 | `d[0] = "M"` makes the first character "M" and keeps the rest of the text; an empty text becomes "M" |
| Exporter.SvgPath | src/ene_svg_exporter/exporter.rb:132-151 | the element built in place, with the outer loop first and then each inner loop appended, is the `<path>` element of the face's loops |
| Exporter.LineToCounts | src/ene_svg_exporter/exporter.rb:135 | "L x y" starts with "L" and holds one "L", no "M", no quote and no line break |
| Exporter.LoopCounts | src/ene_svg_exporter/exporter.rb:133-138 | a loop's data starts with "M" and holds one "M" and a line command for every vertex but the first |
| Exporter.PathCounts | src/ene_svg_exporter/exporter.rb:132-148 | the path data holds one "M" per loop, and when no loop is empty one command per vertex |
| Exporter.PathElementAttributes | src/ene_svg_exporter/exporter.rb:150 | the `<path>` element's only attributes are `d`, holding the path data, and `fill`, holding the colour text |
| Exporter.PathElementLines | src/ene_svg_exporter/exporter.rb:150 | each path element is exactly one line |
| Exporter.FacePaths | src/ene_svg_exporter/exporter.rb:106-107 | the face paths are exactly the yielded paths whose last entity is a face |
| Exporter.PathContent | src/ene_svg_exporter/exporter.rb:106-111 | definition of what one yielded path writes: its face's element, or nothing; properties in Exporter.ContentLines |
| Exporter.Content | src/ene_svg_exporter/exporter.rb:102-116 | definition of the text `svg_content` builds; properties in Exporter.ContentJoin, ContentLines and SvgContent |
| Exporter.ContentJoin | src/ene_svg_exporter/exporter.rb:102-116 | content is written in traversal order: the content of a + b is that of a followed by that of b |
| Exporter.ContentLines | src/ene_svg_exporter/exporter.rb:102-116 | one line, one path element, per face path, and nothing for other entities |
| Exporter.SvgContent | src/ene_svg_exporter/exporter.rb:102-116 | the text accumulated over the traversal is the content of the traversal's paths, in order |
| Exporter.FormatLengthWithUnit | src/ene_svg_exporter/exporter.rb:167-169 | the unitless length followed by "mm" |
| Exporter.SvgStart | src/ene_svg_exporter/exporter.rb:89-94 | definition of the opening tag; properties in Exporter.SvgStartAttributes |
| Exporter.SvgEnd | src/ene_svg_exporter/exporter.rb:121-123 | definition of the closing tag |
| Exporter.Document | src/ene_svg_exporter/exporter.rb:30-38 | definition of the file text: opening tag, content, closing tag; properties in Exporter.SvgDocument and ExportSession.Export |
| Exporter.ExportText | src/ene_svg_exporter/exporter.rb:30-38 | definition of that text for the selection at a scale factor; properties in Exporter.SvgDocument and ExportSession.Export |
| Exporter.SvgStartAttributes | src/ene_svg_exporter/exporter.rb:89-94 | the opening tag has the SVG namespace, width and height with the "mm" unit, and a view box "0 0 w h" with the same numbers and no unit |
| Exporter.SvgDocument | src/ene_svg_exporter/exporter.rb:30-38 | the opening tag sized to the scaled bounds, then the content, then the closing tag |
| Exporter.PromptScale | src/ene_svg_exporter/exporter.rb:49-60 | the current scale's `to_s` is offered; a cancelled box or text that is not a valid scale gives nil; otherwise a fresh valid scale whose `to_s` is the text entered |
| Exporter.ExportSession.constructor | src/ene_svg_exporter/exporter.rb:11 | the remembered scale starts as `Scale.new(1)` |
| Exporter.FirstOffer | src/ene_svg_exporter/exporter.rb:11 | `Scale.new(1)` is valid and is offered as "1:1" |
| Exporter.ExportSession.Export | src/ene_svg_exporter/exporter.rb:14-41 | the remembered scale stays valid and is replaced only by a valid one; a file is written exactly when a valid scale and a path were given, and holds the document for the selection at that scale |

## Left out

- File and user-interface I/O is not modelled: `UI.inputbox`, `UI.messagebox`, `UI.savepanel`, `prompt_path` and `File.write`. The input box's answer and the chosen path are parameters (`None` when cancelled), and `Export` returns the text it would write.
- SketchUp geometry is not modelled. Transformations are opaque functions on points. The selection's bounds are two numbers. `placement` gives each instance path's transformation to paper space for a scale factor. That transformation stands for the product of the scaling, translation and mirroring in `export` and `instance_path.transformation`.
- `format_length` (`length.to_mm.to_s`) is a function parameter. The only assumption about it is that it prints no path command letter, quote or line break, as Ruby's `Float#to_s` does not.
- Floating point is not modelled: factors are exact `real`s.
  - `split_number` computes the coefficient and exponent exactly, where the source reads them off `format("%e")`, which rounds the coefficient to six decimals.
  - The `.to_f` in `round!` is the identity.
  - The 1e-10 tolerance is applied to exact values.
- `String#to_l`, used by the "a = b" grammar, is a parameter (`LengthParser`): a length, or `None` where SketchUp raises `ArgumentError`.
- `parse_length` is not called anywhere and is not modelled.
- Ruby's `^` and `$` anchor at line breaks. Only whole-text matching is modelled. For the dimension grammar a text holding a line break gives nil.
- Scales.Scale.RoundInPlace: requires a valid factor above zero, a target holding 1 and 10, and a direction in {-1, 0, 1}. Outside these inputs the Ruby code either raises or returns a factor the model does not give:
  - A nil factor raises at `@factor < 1`.
  - A direction outside -1..1 raises: `round_to_target` returns nil, and `nil * 10**exponent` fails.
  - A target without 1 or 10 can leave no target value in the requested direction, and then it raises too. Direction 0 returns a value for any non-empty target.
  - A negative factor is rounded through a negative coefficient. `round` and `floor` of `Scale.new(-0.5)` give 1.0; `ceil` raises, because no target value is at most -2.0.
  - A NaN or +Infinity factor: `format("%e")` yields text without "e", so the coefficient reads as 0.0 and the exponent as 0. `round` and `ceil` give 1.0; `floor` raises.
  - A -Infinity factor inverts to -0.0 and is rounded like a negative factor.
  - An integer zero factor raises ZeroDivisionError. A float 0.0 inverts to Infinity, whose text also has no "e".
- Scales.Scale.CeilInPlace: the same restriction as Scales.Scale.RoundInPlace, with direction 1.
- Scales.Scale.FloorInPlace: the same restriction as Scales.Scale.RoundInPlace, with direction -1.
- Scales.Scale.Round: the same restriction as Scales.Scale.RoundInPlace.
- Scales.Scale.Ceil: the same restriction as Scales.Scale.RoundInPlace, with direction 1.
- Scales.Scale.Floor: the same restriction as Scales.Scale.RoundInPlace, with direction -1.
- Scales.Scale.Format: requires a valid scale. A nil, zero, NaN or +Infinity factor makes the Ruby code raise (`nil > 1`, `1 / 0`, or `Float#round` of NaN or Infinity). A -Infinity factor formats as "~1:0", which the model does not give.
  - A number given to `Scale.new` is kept as it is (src/ene_svg_exporter/vendor/scale.rb:32-33), so an Integer stays an Integer, and `1 / @factor` (line 130) is then Integer division, which rounds towards minus infinity. The model holds every factor as an exact real. For negative Integer factors the texts differ: `Scale.new(-3).format` is "~1:-1" in Ruby and "~1:0" in the model, and so for every Integer factor of -3 or less. Positive Integer factors agree: 1 gives "1:1" either way, and 2 or more takes the "N:1" branch.
- Scales.Scale.FromNumber: stores the number as a real; an Integer argument stays an Integer in Ruby, which changes only `format` of negative factors (see Scales.Scale.Format).
- `inspect` (a debugging string) is not modelled.
- Traverser.SortByMinZ: a stable insertion sort. Ruby's `sort_by` is not stable, so the order of siblings with equal min-z is not fixed by the source. The properties proved (sorted, a permutation) hold for any order among equal keys.
- Component definitions shared by several instances are modelled as value trees: each instance carries its own copy of the definition's entities.
- `rendering_options["FaceFrontColor"]` is host state and is passed in as a parameter.
- Edges are not exported (the source has this as a TODO), and neither are other entity kinds. They fall under "nothing for other entities" in `Content`.

## Notes on the code

- `round!` rounds a factor below 1 through its inverse, with the direction negated (src/ene_svg_exporter/vendor/scale.rb:159-161). So `ceil` of 0.0456 rounds the inverse 21.93 down to 20 and gives 0.05 (1:20). `floor` gives 0.02 (1:50), and `round` gives 0.05 (`ScaleRounding.RoundExample`).
- The `wysiwyg` parameter is documented as "whether to skip elements that are currently hidden" (src/ene_svg_exporter/traverser.rb:12). `traverse_with_backtrace` passes it down but never reads it (src/ene_svg_exporter/traverser.rb:23-34): hidden entities are skipped for either value (`Traverser.WalkIgnoresWysiwyg`).
- Sorting siblings by min-z is done inside the traverser (src/ene_svg_exporter/traverser.rb:25). A TODO on the line above it plans to move the sorting out to the code that uses the traversal. The model sorts where the code does.
