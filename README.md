# Light-curve regression utilities: time normalisation and domain-restricted chi-squared

This project models the two pieces of stand-alone logic in the light-curve
regression package's `utils` module, over exact real numbers:

- **Time normalisation** (`convert_to_jd`), module `TimeNormalizer` in
  `time_normalizer.dfy`. A time stamp is sorted into one of three conventions
  by its value alone: a *Snoopy date* (MJD minus 53000) when it is below
  53000, a *Julian Date* (JD) when it is above 2400000.5, and a *Modified
  Julian Date* (MJD, JD minus 2400000.5) otherwise, both thresholds included.
  It is then converted to JD. The numpy vectorisation is a per-element map
  over a sequence (`ConvertAllToJd`).
- **Residual evaluation** (`chisq` and `calc_model_chisq`), module
  `Residuals` in `residuals.dfy`. `ChiSq` is the sum of squared residuals,
  each divided by its error. `CalcModelChisq` keeps only the rows of an
  observation table that lie in the model's domain. A row is kept when its
  time lies in `[mintime, maxtime]` and its bandpass's wavelength span lies
  inside the model's `[minwave, maxwave]`. The function fails when no row is
  kept. Otherwise it returns the chi-squared over the kept rows and the
  degrees of freedom: kept rows minus varied parameters.

The filter is modelled the way numpy does it: a boolean mask
(`DomainMask`) and a boolean-mask selection (`Select`). `Select` keeps the
elements at the true positions (`KeptIndices`), in order. The table is a
value, so the caller's table cannot change. This matches the `deepcopy` in
`utils.py`.

Inputs `utils.py` obtains from the external light-curve library are
parameters here. Each is given per row, aligned with the table:

- `bandMinWave[i]` and `bandMaxWave[i]`: the wavelength bounds of row i's
  bandpass, from the bandpass registry.
- `predicted[i]`: the model's flux for row i.
- `ModelDomain`: the model's time and wavelength bounds.
- `FitResult`: the names of the varied parameters.

Each row keeps its `band` name, but its wavelength bounds are given per row
and are not tied to the name. The model does not assume that two rows with
the same band get the same bounds from the registry; every property holds
for any per-row bounds.

When no row is kept, the program raises `ValueError('No data within model
range')` (lc_regression/utils.py:164-165); the model returns
`Err(NoDataInModelRange)`.

`ConvertToJdIdempotent` proves exactly when normalising twice gives the same
value as normalising once: when the first result lies strictly above
2400000.5, which is when the input lies above -53000. A first result of
exactly 2400000.5 is read as MJD and shifted again.

## Model

| member | source | states |
|---|---|---|
| TimeNormalizer.Classify | lc_regression/utils.py:42-50 | Snoopy exactly when the value is below 53000; JD exactly when it is above 2400000.5; MJD exactly when it lies in the closed range [53000, 2400000.5] |
| TimeNormalizer.ToJdFromJd | lc_regression/utils.py:42-43 | each convention is a fixed offset from JD: reading a JD back in a convention and converting again is the identity, in both orders |
| TimeNormalizer.ConvertToJd | lc_regression/utils.py:32-54 | a value below 53000 becomes value + 53000 + 2400000.5; a value in [53000, 2400000.5] becomes value + 2400000.5; a value above 2400000.5 is unchanged; the input is recovered from the result and its convention |
| TimeNormalizer.ConvertAllToJd | lc_regression/utils.py:31-32 | the vectorised form has the input's length and element i is the scalar conversion of input element i |
| TimeNormalizer.ConvertAllToJdAppend | lc_regression/utils.py:31-32 | converting a concatenation is the concatenation of the conversions, so mixed-convention inputs are handled element by element |
| TimeNormalizer.SameInstantInEveryConvention | lc_regression/utils.py:42-54 | an MJD in [53000, 106000) gives the same JD whether written as Snoopy date, MJD or JD, and each form is classified as that convention |
| TimeNormalizer.ConvertToJdExample | tests/test_utils.py:53-69 | Snoopy 500, MJD 53500 and JD 2453500.5 all normalise to 2453500.5 |
| TimeNormalizer.ThresholdsAreMjd | lc_regression/utils.py:46-50 | exactly 53000 and exactly 2400000.5 are both classified and converted as MJD, because both comparisons are strict |
| TimeNormalizer.ConvertToJdAboveThreshold | lc_regression/utils.py:42-54 | the result is above 2400000.5 exactly when the input is above -53000 |
| TimeNormalizer.ConvertToJdIdempotent | lc_regression/utils.py:42-54 | normalising twice equals normalising once exactly when the first result is above 2400000.5, that is, exactly when the input is above -53000 |
| Residuals.ChiSq | lc_regression/utils.py:16-28 | over equal-length sequences with nonzero errors the chi-squared is non-negative, and it is zero exactly when observed and model values are equal |
| Residuals.ChiSqAppend | lc_regression/utils.py:28 | the chi-squared of two concatenated data sets is the sum of their chi-squareds |
| Residuals.KeptIndicesSpec | lc_regression/utils.py:157-162 | the positions a boolean mask keeps are exactly its true positions, each listed once, in increasing order |
| Residuals.SelectSpec | lc_regression/utils.py:157-162 | a boolean-mask selection has one element per kept position, and element j is the input element at the j-th kept position (an order-preserving subsequence) |
| Residuals.RestrictToModelSpec | lc_regression/utils.py:152-162 | the filtered copy holds a row if and only if its time lies in [mintime, maxtime], its band's minwave is at least the model's minwave and its band's maxwave is at most the model's maxwave; its rows keep their original order |
| Residuals.CalcModelChisq | lc_regression/utils.py:135-167 | fails if and only if no row lies in the model's domain; otherwise the degrees of freedom are the number of kept rows minus the number of varied parameters (possibly zero or negative), and the chi-squared is non-negative |
| Residuals.CalcModelChisqPerfectFit | lc_regression/utils.py:164-167 | when it succeeds, the chi-squared is zero exactly when every row inside the domain has observed flux equal to its predicted flux |
| Residuals.CalcModelChisqAllInDomain | lc_regression/utils.py:155-167 | when every row of a non-empty table is inside the domain, the result is the chi-squared of the whole table and N - k degrees of freedom, for N rows and k varied parameters |
| Residuals.CalcModelChisqIgnoresOutOfDomain | lc_regression/utils.py:152-167 | removing any run of rows that lie outside the domain, at any position, leaves the chi-squared, the degrees of freedom and the failure case unchanged |

## Left out

- `get_csp_t0`, `get_csp_ebv`, `filter_has_csp_data` (lc_regression/utils.py:57-117): they download and read published catalogue tables. That is I/O plus table lookup, so they are not modelled.
- `get_effective_wavelength` (lc_regression/utils.py:120-132): a call into the external bandpass registry, so it is not modelled.
- The bandpass registry lookups and the model's flux prediction (lc_regression/utils.py:155-156, 167) are external library calls. Their answers are per-row input sequences. The registry is assumed to resolve every row's band: the program looks up every row before filtering, so an unregistered band name raises even on a row outside the time range, and that lookup failure is not modelled. The external chi-squared routine is modelled as `ChiSq` over the kept rows' fluxes, flux errors and predictions. Zero points and magnitude systems are part of the prediction and are not modelled separately.
- Floating point: times and fluxes are exact reals. The conversion of MJD to JD through the astropy time object is exact addition of 2400000.5, with no rounding.
- TimeNormalizer.ConvertAllToJd: returns the empty sequence for an empty input, where `np.vectorize` without `otypes` raises `ValueError` on size-0 input; and it maps only one-dimensional input, where numpy maps arrays of any shape and returns a 0-d array for a scalar.
- numpy broadcasting and its shape errors: sequences that go together must have equal lengths, stated as preconditions.
- Residuals.ChiSq: requires every error to be nonzero. With a zero error numpy gives an infinite or NaN chi-squared, and IEEE special values are not modelled.
- Residuals.CalcModelChisq: requires a nonzero error on every row inside the domain, for the same reason. Rows outside the domain may have any error, because they are never divided by.
