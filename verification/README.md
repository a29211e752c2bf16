# optrotvib core, modelled in Dafny

This project models the bookkeeping core of optrotvib, a driver for
vibrationally averaged optical rotation calculations:

- the `Molecule` record: its psi4-style text parser, the `(Z, x, y, z)`
  array constructor, the mass getter, fragment extraction, orientation
  (inertia tensor and sign convention), the shift to the centre of mass,
  the psi4 serializer and the JSON field selection;
- hash preparation (`float_prep`, `compute_hash`);
- the finite-difference helpers: displacement sizes, the
  translation/rotation space, column phasing and `get_vibinfo`;
- the Gaussian engine: the formatted-checkpoint reader, the Hessian,
  gradient and rotation collectors, and the route, title, wavelength and
  geometry line builders;
- the psi4 engine's `extract_rotations`.

Floating-point values are Dafny `real`s. numpy's eigensolver, SVD and
square root, `cosh`/`sinh`, SHA-256, `json.dumps`, float parsing and float
formatting enter as function parameters. Where numpy would go on with an
infinity or a NaN, the model stops with the error `NonFinite`.

One module per file:

- `results.dfy`: the Python exceptions as a `Result` type.
- `strs.dfy`: the string helpers (`split`, `strip`, `int()`, `str(int)`).
- `matrices.dfy`: lists of rows and their algebra.
- `argsort.dfy`: a stable `argsort` and the list filter.
- `elements.dfy`: the element table.
- `molecules.dfy`: the `Molecule` record, the array constructor, the mass getter and `get_fragment`.
- `orientation.dfy`: the inertia tensor, the phase step of `orient_molecule` and `shift_to_com`.
- `psi4_geometry.dfy`: the psi4 text parser.
- `psi4_writer.dfy`: the psi4 serializer.
- `psi4_roundtrip.dfy`: what reading back the serializer's text gives.
- `hashing.dfy`: `float_prep` and `compute_hash`.
- `molecule_json.dfy`: `to_json` and `get_hash`.
- `displacement_sizes.dfy`: the Wiberg and Mort displacement sizes.
- `tr_space.dfy`: `_get_TR_space`.
- `phasing.dfy`: `_phase_cols_to_max_element`.
- `vib_info.dfy`: `get_vibinfo`.
- `g09_fchk.dfy`: `_array_from_fchk`.
- `g09_collect.dfy`: `collect_hessian`, `collect_gradient` and `collect_rotations`.
- `g09_input.dfy`: the input-line builders.
- `psi4_rotations.dfy`: `extract_rotations`.

## Model

| member | source | states |
|---|---|---|
| Molecules.Masses | optrotvib/molecule.py:93-98 | With custom masses the stored list comes back unchanged. Otherwise there is one table mass per symbol, in order, and a KeyError exactly when some symbol is not in the table. |
| Molecules.SetMasses | optrotvib/molecule.py:100-103 | The setter raises the custom flag and stores the value; no other field changes. |
| Molecules.MassesAfterSet | optrotvib/molecule.py:93-103 | After the setter, the getter returns exactly the list that was set. |
| Elements.MassOf | optrotvib/molecule.py:98 | A symbol's table mass, with a KeyError exactly for a symbol not in the table. |
| Elements.MassesOf | optrotvib/molecule.py:98 | One table mass per symbol, in order, with a KeyError exactly when some symbol is missing. |
| Elements.SymbolOf | optrotvib/molecule.py:173 | `z2el[Z]`: a symbol exactly when Z is a whole number in the table, otherwise a KeyError. |
| Elements.SymbolsOf | optrotvib/molecule.py:173 | One symbol per row's Z, in order, with a KeyError exactly when some Z is not a table key. |
| Molecules.UnitFactor | optrotvib/molecule.py:164-169 | "bohr" gives 1. "angstrom" gives the factor that times bohr2angstroms is 1. Any other unit is a KeyError. |
| Molecules.CompleteSplits | optrotvib/molecule.py:175-176 | An empty split list stays empty. Otherwise N is appended exactly when the last split is not N, so the list ends at N and keeps the given splits as its prefix. |
| Molecules.SplitRanges | optrotvib/molecule.py:178-183 | One fragment per split. |
| Molecules.SplitRangesCover | optrotvib/molecule.py:178-183 | For non-decreasing splits, the fragments `[start, split)` laid end to end are exactly start..last split. |
| Molecules.FromNumpy | optrotvib/molecule.py:159-162 | An empty array is an IndexError, a ragged one a ValueError, and a width other than 4 an AttributeError. A well-shaped array is handed to FromRows. |
| Molecules.FromRows | optrotvib/molecule.py:164-183 | Ok exactly when the unit is bohr or angstrom and every Z has a symbol; every other failure is a KeyError. On Ok, the symbols are the rows' elements and the molecule is Build of the rows. |
| Molecules.Build | optrotvib/molecule.py:171-183 | The coordinates are columns 1..3 times the unit factor and every atom is real. The fragments are the completed splits' ranges, each with charge 0.0 and multiplicity 1. The masses are not custom, and the totals stay at 0.0 and 1. |
| Molecules.FromNumpyFragments | optrotvib/molecule.py:175-183 | For in-range non-decreasing splits, the fragments cover atoms 0..N-1 in order, and the molecule is well formed. |
| Molecules.PickAll | optrotvib/molecule.py:507-520 | Python indexing (negative indices count from the end) of each selected fragment, in order; an IndexError exactly when some index is out of range. |
| Molecules.Pick | optrotvib/molecule.py:506-520 | The selected fragments, charges and multiplicities, in selection order, with an IndexError exactly when a selection is out of range. |
| Molecules.Assemble | optrotvib/molecule.py:499-547 | The output fragments are consecutive ranges, real ones first and then ghosts. Exactly the first (real) atoms are flagged real. The charge is the sum of the real charges, the multiplicity is Σ(m−1) over the real fragments, and the fragment charges and multiplicities are the real ones followed by the ghosts'. |
| Molecules.AssembleAtoms | optrotvib/molecule.py:508-514 | Output atom i is the source atom at position i of the real-then-ghost index list: same symbol, same coordinates. |
| Molecules.AssembleWellFormed | optrotvib/molecule.py:499-547 | The extracted fragment is a well-formed molecule. |
| Molecules.GetFragmentErrors | optrotvib/molecule.py:484-498 | Overlapping real and ghost selections give a TypeError. Otherwise an out-of-range selection gives an IndexError, and an empty selection a ValueError (`np.vstack([])`). Ok exactly when none of these holds. |
| Molecules.GetFragmentLayout | optrotvib/molecule.py:499-547 | A successful extraction has consecutive ranges covering all its atoms, one per selected fragment. Exactly the real atoms are flagged real. The charge and multiplicity come from the real fragments, and the result is well formed. |
| Molecules.SingletFragmentMultiplicityZero | optrotvib/molecule.py:524 | As written: extracting the single singlet fragment of H₂ gives multiplicity 0. |
| Molecules.GetFragmentCorrected | optrotvib/molecule.py:479-552 | The corrected extraction fails exactly when the written one does, with the same error. |
| Molecules.CorrectedMultiplicity | optrotvib/molecule.py:524 | The corrected extraction gives multiplicity 1 for all-singlet fragments, and the fragment's own multiplicity for a single fragment. |
| Orientation.Broadcast | optrotvib/molecule.py:420-428 | numpy broadcasting of weights against coordinates: a ValueError exactly when neither length is 1 and the lengths differ. |
| Orientation.InertiaTensor | optrotvib/molecule.py:412-434 | A broadcast failure gives a ValueError; otherwise the result is a symmetric 3×3 matrix. |
| Orientation.TensorIsReference | optrotvib/molecule.py:417-433 | Every entry of the computed tensor equals the textbook inertia-tensor entry Σ w(δ_ab·r² − r_a r_b). |
| Orientation.TensorDiagonalNonNegative | optrotvib/molecule.py:420-422 | With non-negative weights, the diagonal entries are non-negative. |
| Orientation.FirstSignificantFrom | optrotvib/molecule.py:458-465 | The first row from `from` on whose coordinate on axis x has magnitude at least 1e-7, or none when there is no such row. |
| Orientation.PhaseStep | optrotvib/molecule.py:455-473 | The nested atom/axis loop with its early break computes the declarative phase convention `Phase`. |
| Orientation.PhaseFirstPositive | optrotvib/molecule.py:455-473 | After the phase step, each axis's first significant atom is the same as before, and its coordinate is positive. |
| Orientation.PhaseColumnsOnly | optrotvib/molecule.py:469-470 | Each column is either kept or negated as a whole, and negated exactly when its first significant coordinate was negative. |
| Orientation.PhaseIdempotent | optrotvib/molecule.py:455-473 | Applying the phase step twice gives the same as applying it once. |
| Orientation.Orient | optrotvib/molecule.py:436-473 | Ok exactly when the masses and the tensor exist. The new geometry is the phase step applied to the geometry times the eigenvectors; no other field changes. |
| Orientation.OrientedIsPhased | optrotvib/molecule.py:436-473 | An oriented geometry is a fixed point of the phase step, and every axis's first significant coordinate is positive. |
| Orientation.GetFragmentOriented | optrotvib/molecule.py:549-552 | Extraction followed by orientation: errors of the extraction pass through. On success, the symbols and fragments are the extraction's and the geometry is phased. |
| Orientation.ShiftToCom | optrotvib/molecule.py:475-477 | Ok exactly when there is one mass per atom with a non-zero total. Afterwards each mass-weighted coordinate sum is 0, every difference between two atoms' coordinates is unchanged, and nothing else changes. |
| Orientation.Centred | optrotvib/molecule.py:477 | Subtracting the weighted average leaves every weighted column sum at 0. |
| Orientation.ShiftToComIdempotent | optrotvib/molecule.py:475-477 | Shifting a second time changes nothing. |
| Psi4Geometry.Blocks | optrotvib/molecule.py:245-252 | The lines fall into one block more than there are `--` markers. |
| Psi4Geometry.StructuralLines | optrotvib/molecule.py:245-255 | `glines` keeps exactly the marker and atom lines, with every marker. |
| Psi4Geometry.CloseDefault | optrotvib/molecule.py:246-265 | A fragment that has no charge/multiplicity line gets 0.0 and 1 appended; otherwise nothing changes. |
| Psi4Geometry.HeaderPass | optrotvib/molecule.py:212-258 | The first pass fails with a TypeError exactly when some line is unidentifiable. It keeps the structural lines, counts the markers, and selects bohr exactly when some line says so. |
| Psi4Geometry.FirstPass | optrotvib/molecule.py:205-265 | As HeaderPass from the initial state: the units are sticky, since an angstrom line never resets bohr. |
| Psi4Geometry.FirstPassCharges | optrotvib/molecule.py:234-265 | When each fragment has at most one charge/multiplicity line, the fragment charges and multiplicities are each block's line or the defaults 0.0 and 1. |
| Psi4Geometry.FirstPassTotal | optrotvib/molecule.py:238-240 | The total charge and multiplicity are those of the first block: its charge/multiplicity line, or 0.0 and 1. |
| Psi4Geometry.Coordinate | optrotvib/molecule.py:320-335 | A field with no numeric prefix is a TypeError, and one that `float()` rejects is a ValueError. Otherwise it is the number. |
| Psi4Geometry.AtomStepLaid | optrotvib/molecule.py:280-342 | One step of the second pass keeps the fragments contiguous, and a marker closes the open fragment as the range of its atoms. |
| Psi4Geometry.ParseErrors | optrotvib/molecule.py:254-340 | An unidentifiable line is a TypeError. Any TypeError comes from such a line, an unknown element or a line without exactly four fields. A ValueError comes from a malformed number. No other error kind occurs. |
| Psi4Geometry.ParseSucceeds | optrotvib/molecule.py:280-350 | With every line identifiable and every atom line good, parsing succeeds exactly when every fragment holds an atom. An empty fragment is an IndexError at `tempfrag[0]`. |
| Psi4Geometry.ParseLayout | optrotvib/molecule.py:280-350 | A parsed molecule is well formed. Its fragments are non-empty consecutive ranges covering atoms 0..N-1, one per block, and `real` is all True, as written. |
| Psi4Geometry.ParseFragments | optrotvib/molecule.py:280-349 | The fragments are the ranges sized by each block's atom count. |
| Psi4Geometry.ParseFinish | optrotvib/molecule.py:344-350 | The molecule takes the first pass's totals, fragment charges and multiplicities, and the second pass's symbols and custom masses. Its geometry is the coordinates times the unit factor. |
| Psi4Geometry.ParseTotals | optrotvib/molecule.py:238-240 | The total charge and multiplicity come from the first fragment's line, or are 0.0 and 1. |
| Psi4Geometry.ParseAtomLists | optrotvib/molecule.py:305-347 | The symbols are the atom lines' symbols, in order. Masses are custom exactly when some atom has an `@mass` suffix, and then each is the suffix or the table mass. |
| Psi4Geometry.ParseGeometry | optrotvib/molecule.py:337-348 | The geometry is the atom lines' coordinates, scaled by 1/bohr2angstroms unless some line selected bohr. |
| Psi4Geometry.ParseFragmentValues | optrotvib/molecule.py:241-265 | With at most one charge/multiplicity line per fragment, the fragment charges and multiplicities are each block's values or the defaults. |
| Psi4Geometry.GhostFlaggedReal | optrotvib/molecule.py:286-350 | As written: a `Gh(He)` atom parses with `real == [True]`; the corrected parser flags it False. |
| Psi4Geometry.CorrectedGhostFlags | optrotvib/molecule.py:286-350 | The corrected parser fails exactly when the written one does, and differs from it only in `real`. There, an atom is real exactly when its label is not a ghost. |
| Psi4Writer.TruncToward | optrotvib/molecule.py:597 | `%d` of a float truncates toward zero: the integer is within one of the value, never larger in magnitude, and has the same sign. |
| Psi4Writer.AtomText | optrotvib/molecule.py:600-604 | A real atom is written as its symbol, and any other atom as `Gh(symbol)`. |
| Psi4Writer.AtomsOut | optrotvib/molecule.py:600-605 | One output line per atom of the fragment, in order. |
| Psi4Writer.ToPsi4String | optrotvib/molecule.py:588-613 | The text opens with an empty line and always ends with `units bohr`, `no_com` and `no_reorient`. |
| Psi4Writer.LayoutText | optrotvib/molecule.py:588-613 | The text is a newline, then the fragments in order, then the fixed trailer. |
| Psi4Writer.HeadHasNoAtoms | optrotvib/molecule.py:592-598 | The divider and charge/multiplicity lines before a fragment never contain an atom. |
| Psi4Writer.FragmentsOutAtoms | optrotvib/molecule.py:591-605 | The atom lines of the text, in order, are the fragments' atoms grouped fragment by fragment. |
| Psi4Writer.AtomsLayout | optrotvib/molecule.py:591-605 | The atom lines of the whole text are exactly one line per atom of the concatenated fragments. |
| Psi4Writer.LayoutBlocks | optrotvib/molecule.py:591-611 | Re-reading the corrected text splits it into one block per fragment, and block k holds exactly fragment k's charge line and atoms. |
| Psi4RoundTrip.NothingUnidentified | optrotvib/molecule.py:212-258 | Every line the serializer writes is one the parser recognises. |
| Psi4RoundTrip.LayoutReadable | optrotvib/molecule.py:588-613 | With letter symbols of one to three characters and non-negative multiplicities, every written line is recognisable. |
| Psi4RoundTrip.BohrRead | optrotvib/molecule.py:609 | The written text always selects bohr when it is read back. |
| Psi4RoundTrip.AtomLineRead | optrotvib/molecule.py:291-605 | A written atom line reads back as an atom line with the upper-cased symbol, a ghost flag exactly for non-real atoms, and the three formatted coordinates. |
| Psi4RoundTrip.ReadBackOk | optrotvib/molecule.py:185-613 | The corrected text of a re-readable molecule parses without error. |
| Psi4RoundTrip.RoundTripFragments | optrotvib/molecule.py:185-613 | Parsing the corrected text gives back exactly the molecule's fragments. |
| Psi4RoundTrip.RoundTripSymbols | optrotvib/molecule.py:305-604 | Parsing the text gives back the symbols, upper-cased, and no custom masses. |
| Psi4RoundTrip.RoundTripCoordinates | optrotvib/molecule.py:323-609 | Each coordinate read back is the parse of its formatted text, and bohr means it is not rescaled. |
| Psi4RoundTrip.RoundTripCharges | optrotvib/molecule.py:234-598 | A fragment with a real atom reads back its truncated charge and its multiplicity; one without reads back 0.0 and 1. The totals are the first fragment's. |
| Psi4RoundTrip.RoundTripGhosts | optrotvib/molecule.py:297-604 | With the corrected ghost flags, the `real` flags read back are the molecule's own. |
| Psi4RoundTrip.WrittenBlocks | optrotvib/molecule.py:592-598 | As written, re-reading gives one block plus one for each later fragment that has a real atom: all-ghost fragments lose their `--`. |
| Psi4RoundTrip.CorrectedBlocks | optrotvib/molecule.py:591-605 | With the divider kept for every later fragment, there is one block per fragment. |
| Psi4RoundTrip.LayoutsAgree | optrotvib/molecule.py:596 | When every fragment has a real atom, the written and corrected texts are identical. |
| Psi4RoundTrip.GhostFragmentMerged | optrotvib/molecule.py:596 | As written: a real He fragment followed by a ghost He fragment reads back as one fragment, and the corrected text reads back as two. |
| Hashing.FromReal | optrotvib/schema/hash_helpers.py:14 | A real enters as a float of the same value that is not -0.0. |
| Hashing.RoundHalfEvenSpec | optrotvib/schema/hash_helpers.py:21-26 | Rounding to a whole number moves the value by at most ½, keeps whole numbers and non-negativity, and sends exact halves to the even neighbour. |
| Hashing.Round | optrotvib/schema/hash_helpers.py:21-26 | `around(x, n)` keeps the sign, lands on a multiple of 10⁻ⁿ, and lies within half a unit of x. |
| Hashing.RoundIdempotent | optrotvib/schema/hash_helpers.py:21-26 | Rounding a rounded value again changes nothing. |
| Hashing.FloatPrep | optrotvib/schema/hash_helpers.py:14-32 | A list keeps its length. Each item is rounded and then becomes +0.0 exactly when its rounded magnitude is below 5^-(around+1). A float is rounded and never left as -0.0. An int 0 becomes 0.0 and another int stays. Any other type is a TypeError, and only that. |
| Hashing.FloatPrepIdempotent | optrotvib/schema/hash_helpers.py:14-32 | Preparing a prepared value again changes nothing. |
| Hashing.FloatPrepAbsorbsNoise | optrotvib/schema/hash_helpers.py:14-32 | Two values that round alike prepare alike, in a list and as scalars. |
| Hashing.FlipZeroesKeptDigits | optrotvib/schema/hash_helpers.py:23 | As written: with `around = 7`, 1e-6 survives rounding unchanged but is flipped to 0, because 5^-8 = 2.56e-6 is above it. |
| Hashing.FloatPrepIntended | optrotvib/schema/hash_helpers.py:14-32 | The intended preparation keeps every rounded value and only turns -0.0 into +0.0. Lengths are kept, and any other type is still the only error. |
| Hashing.IntendedFlipOnlyZeros | optrotvib/schema/hash_helpers.py:16-23 | With the threshold at half a unit of the last kept digit, only values that round to zero are flipped. |
| Hashing.HashTextAppend | optrotvib/schema/hash_helpers.py:36-40 | The concatenation over two field lists is the concatenation of each. |
| Hashing.ComputeHash | optrotvib/schema/hash_helpers.py:34-43 | The loop builds the in-order concatenation of `dumps` of each hash field present in the data, and the digest is `sha` of that text. |
| Hashing.HashTextIgnoresOtherKeys | optrotvib/schema/hash_helpers.py:37-40 | Data that agree on which hash fields are present, and on their serializations, give the same text; other keys never matter. |
| Hashing.HashTextAbsentFields | optrotvib/schema/hash_helpers.py:38-39 | When no hash field is present, the text is empty. |
| Hashing.HashTextSingleField | optrotvib/schema/hash_helpers.py:37-40 | A present field contributes its `dumps` text at its place in the field order. |
| MoleculeJson.PreparedList | optrotvib/molecule.py:634-640 | `float_prep(...).tolist()` of a list of reals: one prepared item per value, in order. |
| MoleculeJson.PreparedScalar | optrotvib/molecule.py:638 | The prepared total charge is the rounded value and never -0.0. |
| MoleculeJson.ToJson | optrotvib/molecule.py:619-645 | Ok exactly when every listed field has an entry; otherwise the error is the first failing field's. The keys are exactly the listed fields whose value is not empty, each mapped to its entry. |
| MoleculeJson.GetHash | optrotvib/molecule.py:647-652 | `get_hash` fails exactly when `to_json` does, and is otherwise `sha` of the hash text of the JSON form. |
| MoleculeJson.GeometryEntry | optrotvib/molecule.py:630-634 | The geometry entry is absent exactly for a molecule without atoms. Otherwise it is the flattened 3N list of prepared coordinates, with no -0.0. |
| MoleculeJson.PlainEntries | optrotvib/molecule.py:630-642 | Multiplicity, symbols, name, `real` and fragments pass through unchanged when non-empty; an empty provenance is skipped. |
| MoleculeJson.GeometryNoiseInvisible | optrotvib/molecule.py:624-645 | Two molecules that differ only in coordinates rounding alike have the same JSON form. |
| MoleculeJson.GeometryEntriesAgree | optrotvib/molecule.py:634 | Coordinates that round alike give the same geometry entry. |
| MoleculeJson.OtherEntriesAgree | optrotvib/molecule.py:635-642 | Entries other than the geometry do not look at the coordinates. |
| MoleculeJson.SameEntries | optrotvib/molecule.py:626-642 | Molecules with the same entries have the same JSON form. |
| MoleculeJson.HashSeesOnlyHashFields | optrotvib/molecule.py:647-652 | Two molecules whose hash-field entries agree have the same hash. |
| DisplacementSizes.WibergSizes | optrotvib/findif.py:1-10 | A negative temperature and a zero temperature are each a ValueError. For a positive temperature, a zero frequency divides by zero; otherwise there is one size per frequency, and size × bohr2angstroms is √((c1/ν)·coth(c2·ν/T)). |
| DisplacementSizes.WibergSizesAppend | optrotvib/findif.py:6-10 | The list comprehension is elementwise: the sizes of two frequency lists joined are the two size lists joined, and the joined list fails exactly when one part does. |
| DisplacementSizes.MortSizesAsWritten | optrotvib/findif.py:13-23 | As written: `natom = three_n / 3` is a float, so `range(natom)` is a TypeError whenever there is a mode. With no modes, the result is `[]`. |
| DisplacementSizes.MortSizes | optrotvib/findif.py:13-23 | Corrected, with atom n reading rows 3n..3n+2. There are no modes, or a non-zero total length; otherwise numpy would give NaN. The result is nmode copies of one δ, and δ·√3·d equals avg·nmode·natom. |
| DisplacementSizes.MortSeesOnlyAtomLengths | optrotvib/findif.py:17-22 | The sizes depend on the modes only through each atom's squared displacement length. |
| DisplacementSizes.TotalLengthsAgree | optrotvib/findif.py:17-20 | Two mode matrices with the same squared atom displacements have the same total length d. |
| DisplacementSizes.MortSignInvariant | optrotvib/findif.py:17-22 | Negating a mode leaves the sizes unchanged. |
| DisplacementSizes.MortRowsSkipLastAtom | optrotvib/findif.py:18-19 | As written: for two atoms, rows n..n+2 read rows 0-3, never the second atom's last row. A mode that moves only that coordinate has length 0 as written, and 1 when atom n reads rows 3n..3n+2. |
| TrSpace.Translation | optrotvib/findif.py:41-52 | A translation along one axis is a vector of length 3N. |
| TrSpace.Rotation | optrotvib/findif.py:41-53 | A rotation about one axis is a vector of length 3N. |
| TrSpace.Stack | optrotvib/findif.py:52-61 | 'T' stacks the three translations and 'R' the three rotations, translations first, so 'TR' gives six rows of length 3N. A space with neither letter is a ValueError (`np.vstack([])`). |
| TrSpace.CountAbove | optrotvib/findif.py:71 | `np.sum(s > tol)`: at most \|s\|; all of them exactly when every value is above tol, and none exactly when none is. |
| TrSpace.CountAboveAntitone | optrotvib/findif.py:71 | A larger tolerance never keeps more singular values. |
| TrSpace.MaxOf | optrotvib/findif.py:70 | `np.amax`: an element that bounds all the others. |
| TrSpace.CutTolerance | optrotvib/findif.py:68-70 | A non-zero tolerance is used as given. A zero tolerance becomes max(M, N)·max(s)·eps, and fails on an empty list of singular values. |
| TrSpace.Orth | optrotvib/findif.py:63-76 | The kept vectors are the first `num` left singular vectors, as rows, where `num` counts the singular values above the cut; never more than either dimension. |
| TrSpace.GetTrSpace | optrotvib/findif.py:26-83 | A space naming neither T nor R is a ValueError. The result has rows of length 3N, and never more rows than were stacked. |
| TrSpace.TranslationsOrthogonal | optrotvib/findif.py:52 | With an exact square root, translations along different axes are orthogonal, and each has squared norm equal to the total mass. |
| TrSpace.RotationsOrthogonalToTranslations | optrotvib/findif.py:52-53 | For a geometry at its centre of mass, every rotation is orthogonal to every translation. |
| Phasing.Pivot | optrotvib/findif.py:96-101 | The loop's `>=` picks the last index of maximal magnitude. |
| Phasing.PivotSeesMagnitudes | optrotvib/findif.py:96-101 | The pivot depends only on the magnitudes. |
| Phasing.ZeroPivot | optrotvib/findif.py:104 | The pivot is zero exactly when the whole column is zero. |
| Phasing.Phase | optrotvib/findif.py:104 | `arr[i]/abs(arr[i])` is ±1, and +1 exactly when the pivot is positive. |
| Phasing.PhaseColumn | optrotvib/findif.py:95-111 | An empty column is an IndexError. Otherwise Ok exactly when the column is not all zero, with the length kept. |
| Phasing.PhaseColumnFlips | optrotvib/findif.py:104-109 | The column is kept or negated as a whole; the pivot stays where it was and becomes positive. |
| Phasing.PhaseMaxPos | optrotvib/findif.py:95-111 | The loop computes PhaseColumn, and reports a rephase exactly when the pivot was negative. |
| Phasing.PhaseCols | optrotvib/findif.py:86-121 | Column by column, each output column is the phased input column; the shape is kept. |
| Phasing.PhaseColsShape | optrotvib/findif.py:86-121 | Ok exactly when there are no columns, or there are rows and no column is all zero. Each column is kept or negated and its pivot becomes positive. |
| Phasing.PhaseColumnIdempotent | optrotvib/findif.py:95-111 | Phasing a phased column changes nothing. |
| Phasing.PhaseColsIdempotent | optrotvib/findif.py:86-121 | Phasing a phased matrix changes nothing. |
| Phasing.PhaseColumnSignInvariant | optrotvib/findif.py:95-111 | A column and its negation phase to the same result. |
| Phasing.PhaseColsSignInvariant | optrotvib/findif.py:86-121 | Negating any column of the input does not change the phased matrix. |
| G09Fchk.SplitLines | optrotvib/engine/g09_engine.py:18 | `text.split('\n')` gives at least one line, and no line holds a newline. |
| G09Fchk.SplitJoin | optrotvib/engine/g09_engine.py:18 | Splitting newline-free lines joined by `\n` gives those lines back. |
| G09Fchk.JoinSplit | optrotvib/engine/g09_engine.py:18 | Joining the split lines with `\n` gives the text back. |
| G09Fchk.HeaderCount | optrotvib/engine/g09_engine.py:17-23 | A header match (`name R N= count`) only happens on a line that starts with the name. |
| G09Fchk.HeaderCountOfLine | optrotvib/engine/g09_engine.py:17-23 | A line laid out as Gaussian writes a real-array header is matched, with its count read back. |
| G09Fchk.FindLast | optrotvib/engine/g09_engine.py:21-27 | None exactly when no line matches. Otherwise it is a matching line, with no match after it: the loop keeps the last match. |
| G09Fchk.FindLastAt | optrotvib/engine/g09_engine.py:21-27 | A matching line that no later line matches is the one found. |
| G09Fchk.ReadCount | optrotvib/engine/g09_engine.py:27 | `n//5 + bool(n%5)` is ⌈n/5⌉: 5r ≥ n > 5r - 5. |
| G09Fchk.ParseFloat | optrotvib/engine/g09_engine.py:29 | `float(x)` succeeds exactly when the word parses, and fails with ValueError otherwise. |
| G09Fchk.DataSlice | optrotvib/engine/g09_engine.py:29 | `lines[start:start+nline]` holds nline lines, or fewer at the end of the text, in order. |
| G09Fchk.ParseWords | optrotvib/engine/g09_engine.py:29 | Ok exactly when every whitespace-separated word parses, with one value per word. Otherwise ValueError. |
| G09Fchk.Section | optrotvib/engine/g09_engine.py:16-29 | None exactly when no header matches. Otherwise the up to ⌈n/5⌉ lines after the last header, cut short only by the end of the text. |
| G09Fchk.ArrayFromFchk | optrotvib/engine/g09_engine.py:16-32 | `None` exactly when the array is absent. A bad word is a ValueError. Otherwise one value per word of the section. |
| G09Fchk.DataLinesRead | optrotvib/engine/g09_engine.py:27-29 | Values laid out five to a line take ⌈n/5⌉ lines, and their words are the shown values. |
| G09Fchk.ArrayRoundTrip | optrotvib/engine/g09_engine.py:16-32 | An array written with its header, between lines that do not match it, is read back as the same values. |
| Psi4Rotations.RotationEntries | optrotvib/engine/psi4_engine.py:12 | Keeps the variables whose name contains `SPECIFIC ROTATION`, never more than there are. |
| Psi4Rotations.RotationEntriesMembers | optrotvib/engine/psi4_engine.py:12 | An entry is kept exactly when it is a variable with such a name. |
| Psi4Rotations.ParseKey | optrotvib/engine/psi4_engine.py:15-22 | Anything but six words is a ValueError, as is a sixth word that is not an integer once N and M are stripped. Otherwise the record holds the stored value, the fourth word stripped of `)` then `(`, and that integer. |
| Psi4Rotations.ExtractRotations | optrotvib/engine/psi4_engine.py:11-24 | Ok exactly when every picked name parses. The records come in the dictionary's order, one per picked variable. Otherwise the error is that of the first picked name, in dictionary order, that fails to parse. |
| Psi4Rotations.ParseKeyOfName | optrotvib/engine/psi4_engine.py:17-19 | The name psi4 gives a rotation is read back as its gauge and wavelength. |
| Strs.ParseInt | optrotvib/engine/psi4_engine.py:19 | For ASCII text, `int()` of a word succeeds exactly when, once whitespace is stripped, it is an optional sign followed by digits, where single underscores may stand between two digits. |
| Strs.ParseIntOfIntToString | optrotvib/engine/psi4_engine.py:19 | `int()` reads back every integer as Python prints it. |
| Strs.ParseIntSeparator | optrotvib/engine/psi4_engine.py:19 | `int("1_0")` is 10: a separator between digits is dropped. |
| Strs.ParseIntDoubledSeparator | optrotvib/engine/psi4_engine.py:19 | `int("1__0")` is a ValueError. |
| Strs.ParseIntTrailingSeparator | optrotvib/engine/psi4_engine.py:19 | `int("10_")` is a ValueError. |
| Psi4Rotations.NameIsRotationKey | optrotvib/engine/psi4_engine.py:12 | Every name psi4 gives a rotation is picked. |
| Psi4Rotations.ExtractOneRotation | optrotvib/engine/psi4_engine.py:11-24 | One rotation next to an unrelated variable gives exactly that one record. |
| G09Collect.LowerPosRowMajor | optrotvib/engine/g09_engine.py:65-67 | `np.tril_indices_from` visits the lower triangle row by row: the next column in a row, then the start of the next row. |
| G09Collect.LowerPosOnto | optrotvib/engine/g09_engine.py:65-67 | Every position of the packed data lands on some lower-triangle cell. |
| G09Collect.UnpackAsWritten | optrotvib/engine/g09_engine.py:62-67 | As written: the lower triangle, diagonal included, holds the data in row-major lower order, because the second assignment overwrites the diagonal. The strict upper triangle keeps the data in row-major upper order. |
| G09Collect.UnpackSymmetric | optrotvib/engine/g09_engine.py:62-67 | The unpacking Gaussian's lower-triangular layout calls for: a square matrix. |
| G09Collect.UnpackSymmetricSpec | optrotvib/engine/g09_engine.py:62-67 | The corrected unpacking is symmetric and agrees with the as-written one on and below the diagonal. |
| G09Collect.AsWrittenNotSymmetric | optrotvib/engine/g09_engine.py:66-67 | The packed data 1..6 for a 3×3 matrix gives entry (0,2) = 3 and entry (2,0) = 4 as written: not symmetric. The corrected unpacking gives 4 at (0,2). |
| G09Collect.HessianData | optrotvib/engine/g09_engine.py:61-67 | A read error passes through, and a negative natom is a ValueError (`np.zeros`). A missing array is stored by numpy as NaN, so with atoms it is `NonFinite`; with no atoms it is the empty triangle. Otherwise it succeeds exactly when the data fills the triangle or is a single broadcast value, and then it is that data. |
| G09Collect.CheckedHessian | optrotvib/engine/g09_engine.py:61-67 | The same cases on an already-read array, including the missing array: `NonFinite` with atoms and the empty triangle without. |
| G09Collect.HessianMatrixSymmetric | optrotvib/engine/g09_engine.py:62-67 | The corrected matrix is symmetric, a broadcast value included. |
| G09Collect.HessianResult | optrotvib/engine/g09_engine.py:62-71 | A returned matrix is 3N×3N and not all close to zero, and symmetric when unpacked the corrected way. Its lower triangle holds the data. |
| G09Collect.CollectHessian | optrotvib/engine/g09_engine.py:60-71 | As written: errors pass through, and no atoms (even with the array missing) give `None`. A returned matrix is 3N×3N, not near zero, with the data in its lower triangle. |
| G09Collect.CollectHessianSymmetric | optrotvib/engine/g09_engine.py:60-71 | Corrected: the same cases, no atoms giving `None`, and the returned matrix is symmetric. |
| G09Collect.HessianNearZero | optrotvib/engine/g09_engine.py:68 | `np.allclose(0, H)` holds exactly when there are no atoms or every packed value is within the tolerance. |
| G09Collect.CollectHessianNone | optrotvib/engine/g09_engine.py:68-69 | `None` is returned exactly when the data was read and there are no atoms (the array may be missing) or all of it is near zero. |
| G09Collect.CollectGradient | optrotvib/engine/g09_engine.py:73-78 | A read error passes through, and a missing array is a TypeError. `None` is returned exactly when every component is within the tolerance; otherwise the array read. |
| G09Collect.GradientOf | optrotvib/engine/g09_engine.py:75-78 | The same cases, on an already-read array. |
| G09Collect.Requested | optrotvib/engine/g09_engine.py:42-47 | No options and no `omega` both give no wavelengths. A trailing unit string is dropped. |
| G09Collect.Descending | optrotvib/engine/g09_engine.py:51-52 | `sorted` then `reverse`: the same length, non-increasing, drawn from the input. |
| G09Collect.DescendingPermutes | optrotvib/engine/g09_engine.py:51-52 | The descending list is a permutation of the input. |
| G09Collect.Records | optrotvib/engine/g09_engine.py:54-57 | `zip` stops at the shortest input. Record k holds the rotation computed from frequency k and tensor k, wavelength k, and gauge `GIAO`. |
| G09Collect.CollectRotations | optrotvib/engine/g09_engine.py:39-58 | A weights read error passes through. No requested wavelengths give no records. Every record is `GIAO`, with wavelengths in descending order, each one requested. Records exist only when the frequencies were read and match the requested count. They are then `Records` of the read frequencies, the requested wavelengths sorted descending, the tensors and the total weight, one per zipped triple. |
| G09Collect.WavelengthRotations | optrotvib/engine/g09_engine.py:44-57 | For a non-empty wavelength list: records are `GIAO` and descending, each wavelength requested, and they exist only when the frequency count matches. Each record is the rotation of the k-th frequency, k-th descending wavelength and k-th tensor. |
| G09Collect.NmsListed | optrotvib/engine/g09_engine.py:46-52 | A wavelength drawn from the sorted values was requested. |
| G09Collect.RotationsOf | optrotvib/engine/g09_engine.py:53-57 | Never more records than frequencies. Record k carries wavelength k and gauge `GIAO`. On success there are min(frequencies, tensors/9) records, and they are exactly the `Records` of the read tensors and total weight. |
| G09Collect.TensorRecords | optrotvib/engine/g09_engine.py:54-57 | A read error passes through. A missing tensor array is an AttributeError (`None.reshape`). On success the tensor count is a multiple of 9 and there are min(frequencies, tensors/9) records; non-empty records are exactly `Records` of the tensors and the total weight. |
| G09Input.Route | optrotvib/engine/g09_engine.py:124-139 | A missing `modelchem` is a KeyError and a null one an AttributeError. Otherwise two lines: the route, starting `#P `, and a blank. |
| G09Input.RouteWords | optrotvib/engine/g09_engine.py:124-139 | The route's words are `#P`, the job keyword, method/basis, the SCF keywords, and for rotations `polar=OptRot cphf(RdFreq,conver=11)`. |
| G09Input.Title | optrotvib/engine/g09_engine.py:110-116 | Two lines: the title and a blank. |
| G09Input.TitleWords | optrotvib/engine/g09_engine.py:110-116 | The title's words are the driver, `mol`, the molecule name or `(no name)`, `mc`, and the model-chemistry name or `(no name)`. |
| G09Input.RotationWls | optrotvib/engine/g09_engine.py:118-119 | One `<x>nm` line per wavelength. |
| G09Input.RotationWlsRead | optrotvib/engine/g09_engine.py:118-119 | Stripping `nm` from a line reads its wavelength back. |
| G09Input.AtomLines | optrotvib/engine/g09_engine.py:102-106 | One line per atom, built from that atom's three coordinates. |
| G09Input.GeometrySec | optrotvib/engine/g09_engine.py:97-108 | Missing `molecule` is an AttributeError. A missing charge, symbols or geometry is a TypeError, and too short a geometry an IndexError. Otherwise: the charge line, one line per atom, and a blank. |
| G09Input.ChargeLineRead | optrotvib/engine/g09_engine.py:101 | The charge line reads back as `int(charge)` and the multiplicity. |
| G09Input.AtomLineRead | optrotvib/engine/g09_engine.py:103-106 | An atom line reads back as the symbol and the three coordinates times bohr2angstroms. |
| Argsort.ArgsortOf | optrotvib/findif.py:199 | `np.argsort`: indices into the values, ordered so the values are non-decreasing; each index appears once. |
| Argsort.ArgsortIsPermutation | optrotvib/findif.py:199-203 | Every index appears in the argsort, and none twice. |
| Argsort.KeepWhere | optrotvib/findif.py:205-207 | Keeps the indices that pass the test, in order. |
| Argsort.KeepWhereMembers | optrotvib/findif.py:205-207 | An index is kept exactly when it was there and passes. |
| Argsort.KeepWhereSorted | optrotvib/findif.py:205-207 | Filtering keeps the ascending order. |
| Argsort.KeepWhereDistinct | optrotvib/findif.py:205-207 | Filtering keeps the indices distinct. |
| Results.Collect | optrotvib/engine/g09_engine.py:29 | A list comprehension: Ok exactly when every element's call succeeds, with one result per element. Otherwise the error of the first element whose call fails. |
| Results.CollectFirstError | optrotvib/engine/g09_engine.py:29 | The error raised is the first failing element's. |
| VibInfo.CenterOfMass | optrotvib/findif.py:167-172 | A zero total mass with atoms present divides by zero. No atoms give the origin. Otherwise each component times the total mass is the mass-weighted sum of that coordinate. |
| VibInfo.ComAxisMoment | optrotvib/findif.py:169-172 | Accumulating `x·m/mw` atom by atom gives the moment divided by the total mass. |
| VibInfo.CenteredPassesAsWritten | optrotvib/findif.py:173 | A geometry at its centre of mass passes the check as written. |
| VibInfo.CenteredMirror | optrotvib/findif.py:173 | The corrected check treats a centre of mass and its mirror image alike. |
| VibInfo.ComCheckOneSided | optrotvib/findif.py:173-174 | As written, `sum(com) > 1e-10` is one-sided: one atom at x = -1 passes, while the same atom at x = +1 is rejected. |
| VibInfo.CheckInput | optrotvib/findif.py:160-174 | A dimension mismatch is an AttributeError. Ok exactly when the dimensions agree, the centre of mass exists and passes the check (corrected or as written). A failed check is a ValueError. |
| VibInfo.Projector | optrotvib/findif.py:183-185 | P = I - Σ t tᵀ over the rows of the TR space, entry by entry. |
| VibInfo.ProjectorSymmetric | optrotvib/findif.py:183-185 | The projector is symmetric. |
| VibInfo.RootMasses | optrotvib/findif.py:188 | `np.repeat(np.sqrt(mass), 3)`: entry i is √(mass[i div 3]). |
| VibInfo.MassWeighted | optrotvib/findif.py:189-193 | Entry (i,j) is H[i][j] / (s_i·s_j). |
| VibInfo.MassWeightedSymmetric | optrotvib/findif.py:189-193 | Mass weighting keeps a symmetric Hessian symmetric. |
| VibInfo.Projected | optrotvib/findif.py:196 | `P.T @ H @ P` is n×n. |
| VibInfo.ProjectedHessian | optrotvib/findif.py:183-196 | The projected, mass-weighted Hessian is square. |
| VibInfo.ModeOrder | optrotvib/findif.py:199-207 | The argsort, filtered by \|v\| > 1e-5: distinct indices, in ascending order of eigenvalue. |
| VibInfo.ModeOrderMembers | optrotvib/findif.py:205 | An eigenvalue is kept exactly when its magnitude exceeds 1e-5. |
| VibInfo.ModesOrdered | optrotvib/findif.py:199-207 | The kept force constants are non-decreasing, and each is above 1e-5 in magnitude. |
| VibInfo.Frequencies | optrotvib/findif.py:216 | One frequency √(f·uconv_km)·uconv_cm per force constant. |
| VibInfo.KeptColumns | optrotvib/findif.py:203-207 | `qL[:, idx]`: column j is eigenvector kept[j]. |
| VibInfo.Unweighted | optrotvib/findif.py:220 | w[i][j]·s_i = q[i][j]: the eigenvectors divided by √mass row by row. |
| VibInfo.ReducedMasses | optrotvib/findif.py:223 | A zero column divides by zero. Otherwise μ_j times the squared norm of column j is 1. |
| VibInfo.Normalized | optrotvib/findif.py:226 | x[i][j] = √μ_j · w[i][j]. |
| VibInfo.ModesOf | optrotvib/findif.py:198-227 | Only a zero-length column fails. The result's force constants and vectors are the kept eigenpairs in ascending order, with w, μ and x related to them as above, and ω the frequencies of f. |
| VibInfo.UnitModes | optrotvib/findif.py:223-226 | With an exact square root, each column of x has unit norm. |
| VibInfo.Vibrations | optrotvib/findif.py:183-227 | A Hessian of the wrong size is a ValueError (numpy broadcasting), and a zero mass the only other failure. Otherwise the modes come from the eigenpairs of the projected, mass-weighted Hessian, as in ModesOf. |
| VibInfo.Run | optrotvib/findif.py:160-227 | A failed input check passes through. On success the dimensions agree, the TR space is built, and the result is Vibrations on it. |
| VibInfo.GetVibInfo | optrotvib/findif.py:124-227 | Corrected check. A dimension mismatch is an AttributeError. On success the centre of mass is within 1e-10 of the origin (sum of magnitudes), and the modes are shaped, ordered and consistent with √mass. |
| VibInfo.GetVibInfoAsWritten | optrotvib/findif.py:124-227 | As written. A dimension mismatch is an AttributeError. On success `sum(com) <= 1e-10`, and the modes are shaped, ordered and consistent with √mass. |

## Left out

- Phasing.PhaseColumn: an all-zero column makes numpy divide 0/0 and go on with a NaN column; the model stops with `NonFinite` instead. The same holds for Phasing.PhaseCols.
- DisplacementSizes.MortSizes: when the total length d is 0, numpy returns `[nan] * nmode` (or `inf`); the model returns `NonFinite`.
- DisplacementSizes.WibergSizes: the `ZeroDivisionError` for a zero frequency is what Python floats raise. A numpy array of frequencies would give `inf` with a warning instead.
- Hashing.Round: rounds exact reals half to even. numpy rounds the binary double, so `np.around(2.675, 2)` is 2.67 where the model gives 2.68.
- Molecules.FromNumpy: the source appends the new fragment to the list passed in as `frags`, so the caller's list changes. That mutation is not modelled.
- MoleculeJson.ToJson: the schema validation step (`validate`) is not modelled.
- Psi4Geometry.ParsePsi4: the regular expressions are replaced by lines already classified as blank, comment, `units`, `no_com`/`no_reorient`, `--`, charge/multiplicity or atom. The same holds for the other Psi4Geometry members.
- VibInfo.ReducedMasses: `np.linalg.norm(w, axis=0)**2` is modelled as the sum of squares, without the intermediate square root.
- VibInfo.Vibrations: the square root of a negative force constant is a NaN frequency in numpy. It is left to the `sqrt` parameter.
- VibInfo.GetVibInfo: the result is the mode record; the `vibinfo` dictionary of `QCAspect` entries it is packed into is not modelled.
- Argsort.ArgsortOf: a stable sort. numpy's default `argsort` (quicksort) is not stable, so the order among equal eigenvalues may differ.
- Opaque parameters: `sqrt`, `coth`, the SVD, the symmetric eigensolver, float formatting and parsing, `json.dumps` and SHA-256 are parameters. Only the properties the contracts ask of them are assumed.
- Constants: `LINEAR_A_TOL`, machine epsilon and the `physconst` conversions (`bohr2angstroms`, `uconv_km`, `uconv_cm`, the rotation prefactor) are parameters rather than literals.
- Non-finite values: a zero total mass, a zero atom mass and a zero-length mode all stop with `NonFinite` where numpy would carry `inf` or `nan`.
- G09Collect.CollectRotations: the rotation prefactor, `compute_rotation`'s constant, is a parameter.
- G09Collect.CollectRotations: once the trailing unit is dropped, the model raises TypeError for any unit string left in the list. Python's `sorted` raises only when it compares a string with a number, so a list of strings alone (`["nm", "nm"]`) or a single string sorts fine and would go on to a record whose wavelength is a string. The model's records hold real wavelengths, so that path is not modelled.
- G09Collect.CollectHessian: with atoms, a missing Hessian array makes numpy fill the matrix with NaN, which `allclose` does not call zero; the model reports `NonFinite` instead of returning that matrix.
- Molecules.GetFragment: callers must pass a `WellFormed` molecule. `from_numpy` (optrotvib/molecule.py:174-183) can build molecules outside it. After a negative split, the next fragment starts at a negative index (`range(-2, 3)`), which numpy and list indexing wrap to atoms at the end. A split past the atom count gives a fragment naming atoms that do not exist, which `self.geometry[...]` turns into an IndexError (optrotvib/molecule.py:508-511). A custom mass list shorter than the atoms raises IndexError at optrotvib/molecule.py:514. None of these paths is modelled. The same holds for Molecules.GetFragmentErrors, Molecules.GetFragmentLayout, Molecules.GetFragmentCorrected and Orientation.GetFragmentOriented.
- Psi4Writer.ToPsi4String: it also requires a `WellFormed` molecule, so the IndexError that fragments naming missing atoms, or a short mass list, would raise is not modelled.
- Strs.ParseInt: whitespace and digits are ASCII only. Python's `int()` also strips Unicode whitespace such as U+00A0 and reads Unicode decimal digits (`int("٣") == 3`); the model rejects both. The same ASCII restriction applies to `Strs.Words` and `Strs.Strip`, so the modelled `str.split()` and `str.strip()` treat Unicode spaces as ordinary characters.
- Psi4Rotations.ParseKey: splits words at ASCII whitespace and reads the wavelength with ASCII digits, as in Strs.ParseInt. A key such as `CC2 SPECIFIC ROTATION (LEN) @\u00a0589NM` gives a record in Python but a ValueError in the model.
- G09Fchk.HeaderCount: the regular expression is written out for a literal array name. Whitespace and digits are ASCII only.
- G09Input.GeometrySec: the multiplicity is an optional integer, printed as Python prints it.
- Verbose printing (`verbose=True` in `_get_TR_space` and `_phase_cols_to_max_element`) is not modelled; it only prints.
- `_to_g09_string`, `_link_header`, `_end_input` and `write_input` are not modelled. They assemble text around the modelled builders and read the machine's memory and core count.
- `exe_g09`, `exe_fchk` and the engines' `run`, the command-line interface, job submission, input generation, `from_file`, `compare` and `schema_util` are not modelled. They are I/O and process control.

## Findings

| source | as written | input that shows it | evidently intended | confidence | as-written member | corrected member |
|---|---|---|---|---|---|---|
| optrotvib/schema/hash_helpers.py:23 | list entries below 5^-(around+1) are set to 0 after rounding | `around = 7`, entry 1e-6: it rounds to itself, yet 5^-8 = 2.56e-6 flips it to 0 | only values that rounded to ±0 are flipped, so signed zeros agree | medium, not executed | Hashing.FlipZeroesKeptDigits | Hashing.FloatPrepIntended, Hashing.IntendedFlipOnlyZeros |
| optrotvib/molecule.py:524 | `multiplicity = sum(x - 1 for x in fragment_multiplicities)` | the single singlet fragment of H₂ gets multiplicity 0 | the unpaired electrons summed, plus one | high, not executed | Molecules.SingletFragmentMultiplicityZero | Molecules.GetFragmentCorrected, Molecules.CorrectedMultiplicity |
| optrotvib/molecule.py:286 | every parsed atom is flagged `real = True` | `Gh(He) 0 0 0` parses with `real == [True]` | ghost atoms flagged False, as line 297 detects them | high, not executed | Psi4Geometry.GhostFlaggedReal | Psi4Geometry.CorrectedGhostFlags |
| optrotvib/molecule.py:596-598 | the `--` divider is written only for fragments with a real atom | a real He fragment followed by a ghost He fragment reads back as one fragment | one `--` per later fragment, so the text reads back with the same fragments | medium, not executed | Psi4RoundTrip.GhostFragmentMerged, Psi4RoundTrip.WrittenBlocks | Psi4RoundTrip.CorrectedBlocks, Psi4RoundTrip.RoundTripFragments |
| optrotvib/findif.py:15 | `natom = three_n / 3` is a float | any mode matrix with a mode: `range(natom)` raises TypeError | integer division | high, not executed | DisplacementSizes.MortSizesAsWritten | DisplacementSizes.MortSizes |
| optrotvib/findif.py:19 | atom n reads rows n, n+1, n+2 | two atoms, a mode moving only row 5: length 0 | atom n reads rows 3n, 3n+1, 3n+2 | high, not executed | DisplacementSizes.MortRowsSkipLastAtom | DisplacementSizes.MortSizes |
| optrotvib/engine/g09_engine.py:66-67 | the packed lower triangle is also assigned in upper row-major order | 3×3 data 1..6: entry (0,2) is 3 but (2,0) is 4 | a symmetric Hessian, with the upper triangle mirroring the lower | high, not executed | G09Collect.AsWrittenNotSymmetric, G09Collect.CollectHessian | G09Collect.CollectHessianSymmetric, G09Collect.UnpackSymmetricSpec |
| optrotvib/findif.py:173 | `sum(com) > 1e-10` is one-sided | one atom at x = -1 passes, while the same atom at x = +1 is rejected | the magnitude of the offset is checked | high, not executed | VibInfo.ComCheckOneSided, VibInfo.GetVibInfoAsWritten | VibInfo.CenteredMirror, VibInfo.GetVibInfo |
