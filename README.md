# Answer-sheet grading system: a Dafny model

The system is a Django application. Professors use it to register students
and disciplines, keep a question bank, generate tests with answer keys, and
grade scanned multiple-choice answer sheets. Its logic has three parts:
- an optical mark reader (`cadastro/omr_processor.py`). It finds the answer
  bubbles, groups them into question rows and reads one letter A to E per
  question. When that fails it falls back to a fixed grid, a calibrated
  template for the five-question "G5" sheet, or a band-by-band scan;
- the answer key record: `GabaritoProva` grades a student's answers, and
  `Prova` and `GabaritoProva` store their lists as JSON text
  (`cadastro/models.py`);
- the views that validate registrations, enrol students, compute the
  pass/fail status, apply a grade read from a sheet, delete questions, check
  the size of a requested test and list students (`cadastro/views.py`).

A second, standalone reader for a real 20-question, two-column sheet
(`analyze_real_image.py`) is modelled as well.

The modules are:
- `Base`: an option type, plus ASCII `isdigit`, `upper`, `lower` and Python's
  string order.
- `Sorting`: Python's stable `sorted`, proved ordered, a permutation and
  stable, and the list-comprehension filter.
- `Answers`: answer letters, blank counting, padding and cutting, and the
  arg-max rule every scorer uses.
- `OmrProcessor`: `process_omr_image` and its four strategies.
- `RealImage`: `analyze_real_image.py`.
- `Models`: the classes `Prova` and `GabaritoProva`.
- `Views`: the rules of the views, and the class `Dados`, the stored data
  that the views change in place.

Image processing is abstracted. A contour is a record of the measurements
the code reads from OpenCV: position, area, perimeter, circularity, number
of polygon vertices and ink count. The ink inside a circle of the
thresholded image is a function `(x, y, radius) -> pixels`. The fallback
scan receives the image size, the horizontal lines, the circles found in
each band and the ink of each cell. JSON encoding is an encoder/decoder pair
passed as a parameter. The decoder answers `None` where `json.loads` raises.

Where the code and its description disagree, the model follows the code:
- an image that cannot be loaded raises inside the reader's `try` and is
  answered with `n` blanks rather than treated as fatal;
- the fallback with no separators and `n == 0` divides by zero and is
  answered with `[]`.

## Model

| member | source | states |
|---|---|---|
| Base.LexLeTotal | cadastro/views.py:300-303 | Python's string order is total, so sorting by name is defined for every pair |
| Base.LexLeTransitive | cadastro/views.py:300-303 | Python's string order is transitive |
| Sorting.Sort | cadastro/omr_processor.py:115 | sorting keeps the length |
| Sorting.SortSorted | cadastro/omr_processor.py:115 | `sorted` with a total preorder key returns its input in order |
| Sorting.SortPermutes | cadastro/omr_processor.py:115 | `sorted` returns a permutation of its input |
| Sorting.SortStable | cadastro/omr_processor.py:115 | `sorted` is stable: elements with equal keys keep their input order |
| Sorting.SortDistinct | analyze_real_image.py:83 | sorting distinct keys keeps them distinct |
| Sorting.FilterMembers | cadastro/views.py:819 | a comprehension keeps exactly the elements satisfying its condition |
| Sorting.FilterAppend | analyze_real_image.py:65-66 | filtering distributes over concatenation |
| Sorting.FilterSplits | analyze_real_image.py:65-66 | filtering by a condition and by its negation splits the list in two (multiset union) |
| Sorting.FilterSorted | analyze_real_image.py:62-66 | filtering a sorted list leaves it sorted |
| Sorting.FilterShrinks | cadastro/views.py:818-821 | a filter keeps the list's length exactly when every element passes, and then returns the list itself |
| Sorting.FilterNone | analyze_real_image.py:74-79 | nothing passes a filter that no element satisfies |
| Answers.Letter | cadastro/omr_processor.py:187 | `chr(65 + i)` for i < 5 is a non-blank answer |
| Answers.LetterInjective | cadastro/omr_processor.py:187 | different alternatives give different letters |
| Answers.BlanksAppend | cadastro/omr_processor.py:196 | `count('')` adds up over concatenation |
| Answers.NoAnswersBlanks | cadastro/omr_processor.py:221 | `[''] * n` holds n blanks |
| Answers.PadTo | cadastro/omr_processor.py:192-193 | padding gives max(len, n) entries, keeps the prefix and appends blanks only |
| Answers.PadAnswers | cadastro/omr_processor.py:192-193 | the `while len < n: append('')` loop computes the padding |
| Answers.Take | cadastro/omr_processor.py:217 | `s[:n]` has min(len, n) entries equal to the first of `s` |
| Answers.ResizeExact | cadastro/omr_processor.py:192-217 | padding then cutting yields exactly n entries: the first ones of the input, then blanks |
| Answers.Peak | cadastro/omr_processor.py:151-173 | the running maximum bounds every fill and is a fill or 0 |
| Answers.ArgMax | cadastro/omr_processor.py:151-173 | the arg-max index is -1 or a position |
| Answers.ArgMaxIsLeftmostMaximum | cadastro/omr_processor.py:151-173 | the index is -1 exactly when all fills are 0; otherwise it holds the maximum and every earlier fill is strictly smaller (ties go to the earlier letter) |
| Answers.PickSpec | cadastro/omr_processor.py:186-189 | `Pick`: a letter is emitted exactly when the maximum exceeds the floor, and it is the leftmost maximum |
| Answers.PickMeaning | cadastro/omr_processor.py:171-189 | in terms of the fills alone: a letter exactly when some slot is above the floor, naming the leftmost slot with the most ink |
| Answers.PickDominant | cadastro/omr_processor.py:171-187 | a slot with strictly the most ink above the floor is the one read |
| Answers.PickLetter | cadastro/omr_processor.py:283-316 | the arg-max loop followed by the floor test computes the pick |
| Answers.PickLetterAbove | cadastro/omr_processor.py:389-408 | the loop whose update also tests the floor reads the same letter |
| OmrProcessor.SelectBubbles | cadastro/omr_processor.py:78-98 | the loop keeps the contours passing the area, perimeter, circularity and vertex tests, in order |
| OmrProcessor.SelectedAreBubbles | cadastro/omr_processor.py:86-98 | `IsAnswerBubble`: a contour is kept exactly when it is one of the contours and passes the tests |
| OmrProcessor.ContourOrdersArePreorders | cadastro/omr_processor.py:115-132 | ordering by y and by x are total preorders |
| OmrProcessor.Group | cadastro/omr_processor.py:119-129 | grouping yields no rows exactly for no contours |
| OmrProcessor.LastOfFlatten | cadastro/omr_processor.py:126 | the last contour seen is the last of the last row |
| OmrProcessor.FlattenSnoc | cadastro/omr_processor.py:123-129 | appending a row appends its contours |
| OmrProcessor.ExtendLastRow | cadastro/omr_processor.py:121-126 | a contour within 20 of the last y joins the current row and keeps the rows a partition |
| OmrProcessor.StartRow | cadastro/omr_processor.py:121-126 | a contour more than 20 from the last y starts a new row and keeps the rows a partition |
| OmrProcessor.GroupIsRowPartition | cadastro/omr_processor.py:119-129 | the rows partition the sorted contours in order: none is empty, their concatenation is the input, neighbours within a row are within 20 in y, and each new row starts more than 20 from the previous contour |
| OmrProcessor.GroupRows | cadastro/omr_processor.py:106-129 | the grouping loop over `current_row` and `last_y` computes `Group` |
| OmrProcessor.OrderRowsSortsEach | cadastro/omr_processor.py:132 | `OrderRows`: each row, ordered by x, is sorted by x and a permutation of the row |
| OmrProcessor.TopPercentageIsMaximum | cadastro/omr_processor.py:176-180 | the first of the percentages sorted in reverse is the largest |
| OmrProcessor.RowAnswerSpec | cadastro/omr_processor.py:146-189 | `RowAnswer`: a row is blank when the top two percentages differ by less than 15 and the raw maximum is below 40; otherwise it is the pick above 30; a letter appears exactly when neither stops it |
| OmrProcessor.ScoreRow | cadastro/omr_processor.py:151-189 | the row loop computes the row's answer |
| OmrProcessor.ScanRow | cadastro/omr_processor.py:151-170 | the pass over a row yields its largest ink count, the leftmost position holding it, and the fill percentages in order |
| OmrProcessor.FullRowMember | cadastro/omr_processor.py:140-142 | rows that pass the filter have at least five candidates |
| OmrProcessor.RowsAnswersSpec | cadastro/omr_processor.py:139-189 | `RowsAnswers`: one valid answer per row of five or more candidates; rows that are all short give none |
| OmrProcessor.DetectRows | cadastro/omr_processor.py:135-189 | the loop over the rows computes the row answers |
| OmrProcessor.ContourAnswersSpec | cadastro/omr_processor.py:112-189 | `ContourAnswers`: the bubbles give valid answers, at most one per five bubbles, so none without bubbles |
| OmrProcessor.FixedAnswersSpec | cadastro/omr_processor.py:283-316 | `FixedAnswers`: one answer per sampled question; it is blank exactly when no alternative has ink above the floor at its centre, and otherwise it names the leftmost alternative with the most ink |
| OmrProcessor.ScoreFixed | cadastro/omr_processor.py:279-316 | the nested scoring loop computes the fixed-layout answers |
| OmrProcessor.SampleRow | cadastro/omr_processor.py:286-309 | the inner loop samples the ink at every centre of one question, in order |
| OmrProcessor.GeneratedGrid | cadastro/omr_processor.py:264-268 | region i spans `[base_y + i*gap, base_y + i*gap + 40]` over the columns 450..650 |
| OmrProcessor.GridRegions | cadastro/omr_processor.py:237-268 | five explicit regions for n <= 5, otherwise min(n, 20) generated ones |
| OmrProcessor.GridFits | cadastro/omr_processor.py:237-268 | every grid row has at most five alternatives |
| OmrProcessor.GridAnswersSpec | cadastro/omr_processor.py:223-326 | `GridAnswers`: exactly n valid answers; question q is read on the centre line `(y_start + y_end) // 2` of its region, radius 20 and floor 30, and is blank beyond the regions |
| OmrProcessor.GeneratedRowCentre | cadastro/omr_processor.py:250-288 | for n > 5 row i is centred at `base_y + i*gap + 20`, with (450, 50), (420, 40) or (400, 30) by n |
| OmrProcessor.TryGridApproach | cadastro/omr_processor.py:223-326 | `_try_grid_approach` computes the grid answers |
| OmrProcessor.G5AnswersSpec | cadastro/omr_processor.py:481-544 | `G5Answers`: the template gives five valid answers, question q scored at y = 490 + 58q over x 452..656, radius 25, floor 50 |
| OmrProcessor.ProcessSpecificG5 | cadastro/omr_processor.py:481-544 | `_process_specific_g5` computes the template answers |
| OmrProcessor.LongLineYs | cadastro/omr_processor.py:362-365 | a y is kept exactly when it is the top of some line wider than half the image; at most one per line |
| OmrProcessor.SeparatorsSpec | cadastro/omr_processor.py:362-367 | `Separators`: in increasing order, a permutation of the kept tops, and a y is a separator exactly when it is the top of a line wider than half the image |
| OmrProcessor.CircleAnswerSpec | cadastro/omr_processor.py:386-408 | `CircleAnswer`: the circles read are the first five by x, drawn from the band; the answer is a letter exactly when one of them has more than 20 ink pixels, and it names the leftmost of those with the most ink |
| OmrProcessor.SliceAnswerSpec | cadastro/omr_processor.py:377-430 | `SliceAnswer`: a band with circles is read from them; otherwise from five columns `width // 5` wide, a letter exactly when some column has more than 50 ink pixels, naming the leftmost column with the most ink |
| OmrProcessor.PairAnswerSpec | cadastro/omr_processor.py:446-469 | `PairAnswer`: a band between separators with fewer than five circles is blank; otherwise it is read from its circles |
| OmrProcessor.FallbackAnswersSpec | cadastro/omr_processor.py:341-475 | `FallbackAnswers`: exactly n valid answers; without separators question i is read from band `[i*h, (i+1)*h)` with `h = height // n`; with separators, between separators i and i+1, and blank beyond them |
| OmrProcessor.SliceAnswersValid | cadastro/omr_processor.py:370-430 | every band of the equal split yields a blank or a letter A to E |
| OmrProcessor.PairAnswersValid | cadastro/omr_processor.py:431-469 | every band between two separators yields a blank or a letter A to E |
| OmrProcessor.ScoreCircles | cadastro/omr_processor.py:386-408 | the circle loop (first five, left to right, floor 20) computes the band's answer |
| OmrProcessor.ScoreColumns | cadastro/omr_processor.py:411-430 | the column loop is the pick over the five cells with floor 50 |
| OmrProcessor.FallbackDetection | cadastro/omr_processor.py:341-479 | `_fallback_detection` computes the fallback answers |
| OmrProcessor.LongLines | cadastro/omr_processor.py:362-365 | the loop keeps the tops of exactly the lines wider than half the image, in order |
| OmrProcessor.ScoreSlices | cadastro/omr_processor.py:370-430 | the equal-split loop answers question i from band [i*h, (i+1)*h) with h = height // n |
| OmrProcessor.ScorePairs | cadastro/omr_processor.py:431-469 | the separator loop answers band i from separators i and i+1, stopping after n bands |
| OmrProcessor.EscalateImproves | cadastro/omr_processor.py:195-215 | `Escalate`: escalation never adds a blank; it replaces the answers only by the grid's or the template's, and only with strictly fewer blanks |
| OmrProcessor.GridOnlyWhenMostlyBlank | cadastro/omr_processor.py:196-202 | `MostlyBlank`: the grid's answers matter only when more than 70% of the answers are blank |
| OmrProcessor.TemplateOnlyOnG5Sheet | cadastro/omr_processor.py:204-215 | the template's answers matter only on a G5 sheet |
| OmrProcessor.GridAdopted | cadastro/omr_processor.py:196-215 | When more than 70% of the answers are blank and the grid has fewer blanks, the grid's answers are the result off a G5 sheet, and on a G5 sheet they give way only to a non-empty template reading with fewer blanks still. |
| OmrProcessor.Basename | cadastro/omr_processor.py:206 | the base name is the suffix after the last `/` |
| OmrProcessor.BasenameOfPath | cadastro/omr_processor.py:206 | only the file name counts, whatever the directories |
| OmrProcessor.G5FileName | cadastro/omr_processor.py:205-209 | `IsG5Sheet`: `G5-P.jpg` in any directory is a G5 sheet when n is 5 (the match is on the lower-cased name) |
| OmrProcessor.OmrResultShape | cadastro/omr_processor.py:43-221 | `OmrResult`: the reader always returns exactly n answers, each blank or A to E, on every path including the failed load |
| OmrProcessor.OmrResultNoWorseThanBubbles | cadastro/omr_processor.py:191-217 | the result never has more blanks than the padded bubble answers |
| OmrProcessor.TakeBlanks | cadastro/omr_processor.py:217 | cutting to the first n answers never adds a blank |
| OmrProcessor.ProcessOmrImage | cadastro/omr_processor.py:43-221 | `process_omr_image`'s steps compute the reader's result: n valid answers |
| RealImage.FindCircles | analyze_real_image.py:46-57 | the loop keeps the contours with area in (200, 2000), positive perimeter and circularity above 0.4 |
| RealImage.CirclesSpec | analyze_real_image.py:46-57 | `Circles`: a mark is read exactly for each contour passing those tests, at the centre `(x + w // 2, y + h // 2)` of its bounding box |
| RealImage.ColumnSplitPartitions | analyze_real_image.py:62-66 | `LeftColumn`, `RightColumn`: the columns partition the circles: left exactly when x < 500, right otherwise, both ordered by x |
| RealImage.BucketsSpec | analyze_real_image.py:74-79 | `Buckets`: the row dictionary has a key per `y // 40 * 40` present; each bucket holds that band's circles in order, and keys appear once each |
| RealImage.Organize | analyze_real_image.py:88 | at most 10 rows per column |
| RealImage.FullBandMember | analyze_real_image.py:85 | kept bands hold at least five circles |
| RealImage.FullKeysSpec | analyze_real_image.py:83-86 | the kept bands are in strictly increasing order of y and are exactly those with five circles or more |
| RealImage.OrganizeSpec | analyze_real_image.py:72-88 | row i is the first five, by x, of the i-th full band from the top, up to 10 rows; every row has five sorted circles of that band |
| RealImage.OrganizeByRows | analyze_real_image.py:72-88 | `organize_by_rows` computes the organised rows |
| RealImage.BucketColumn | analyze_real_image.py:74-79 | the bucketing loop builds the row dictionary and its keys in first-seen order |
| RealImage.KeptRowsSnoc | analyze_real_image.py:83-86 | `KeptRows`: one more key adds its band's first five circles exactly when the band is full |
| RealImage.KeepFullRows | analyze_real_image.py:82-86 | the loop over the sorted keys keeps the full bands |
| RealImage.LeadingFilter | analyze_real_image.py:83-86 | filtering a growing prefix grows a prefix of the filtered keys |
| RealImage.ColumnAnswersSpec | analyze_real_image.py:96-129 | `ColumnAnswers`: one answer per row; circle j is sampled within radius 20 of its centre; an answer is a letter exactly when some circle has more than 100 pixels, and then it names the leftmost maximum |
| RealImage.AnalyzeColumn | analyze_real_image.py:96-129 | `analyze_column` computes the column's answers |
| RealImage.AssembleSpec | analyze_real_image.py:136-142 | `Assemble`: the final list has exactly 20 answers: left column, then right column, then blanks |
| RealImage.RightColumnStartsAtEleven | analyze_real_image.py:132-136 | with a full left column, right row q answers question 11 + q |
| RealImage.SheetAnswersSpec | analyze_real_image.py:46-142 | `SheetAnswers`: 20 valid answers; the left column's rows answer the first questions in order and the right column's rows follow them |
| RealImage.AgreementsSpec | analyze_real_image.py:150-154 | `Agreements`, `Correct`: the count is at most the length; it equals it exactly when all agree, and is 0 exactly when none do |
| RealImage.AgreementsFix | analyze_real_image.py:150-154 | correcting one disagreeing answer adds exactly one |
| RealImage.AccuracyBounds | analyze_real_image.py:148-157 | `Accuracy`: at most 20 correct; accuracy between 0 and 100, and 100 exactly when the answers are the expected list |
| RealImage.CountCorrect | analyze_real_image.py:150-154 | the loop over `zip` counts the agreements |
| RealImage.AnalyzeRealImage | analyze_real_image.py:46-157 | the script's steps yield 20 valid answers and a count of at most 20 |
| Models.Prova.constructor | cadastro/models.py:60 | the record holds the given text |
| Models.Prova.GetQuestoesIdsList | cadastro/models.py:65-71 | text that decodes gives exactly the decoded list, and undecodable text gives `[]` |
| Models.Prova.SetQuestoesIdsList | cadastro/models.py:73-76 | stores the encoding; reading back returns the list when the codec round-trips |
| Models.GabaritoProva.constructor | cadastro/models.py:85 | the record holds the given text |
| Models.GabaritoProva.GetRespostasDict | cadastro/models.py:91-97 | text that decodes gives exactly the decoded dictionary, and undecodable text gives `{}` |
| Models.GabaritoProva.SetRespostasDict | cadastro/models.py:99-102 | stores the encoding; reading back returns the key when the codec round-trips |
| Models.GabaritoProva.CalcularNota | cadastro/models.py:104-120 | the counting loop returns the number of key questions answered right, the size of the key, and the percentage |
| Models.CountCorrect | cadastro/models.py:112-117 | the loop over the key counts exactly the questions whose answer matches the key ignoring case |
| Models.PercentualFull | cadastro/models.py:119 | for a non-empty key the percentage is 100 exactly when every question is right |
| Models.CorrectIds | cadastro/models.py:114-117 | `IsCorrect`: the questions answered right are questions of the key |
| Models.SubsetCard | cadastro/models.py:111-117 | a subset is no larger, and equal size means equal sets |
| Models.ScoreBounds | cadastro/models.py:110-119 | 0 <= acertos <= total and 0 <= percentage <= 100 |
| Models.FullMarks | cadastro/models.py:119 | `Percentual`: the percentage is 100 exactly when the key is non-empty and every question is right; an empty key gives 0 |
| Models.FixingOneAnswer | cadastro/models.py:114-117 | correcting one wrong answer adds exactly one |
| Models.ExtraAnswersIgnored | cadastro/models.py:114-115 | answers to questions outside the key change nothing |
| Models.CaseInsensitive | cadastro/models.py:116 | an answer in lower case counts when its upper case is the key's letter |
| Views.ValidarUsuario | cadastro/views.py:132-137 | accepted exactly when the CPF is 11 digits, the RG 7 digits and the CPF new; the errors come in that order |
| Views.RegistrationKeepsCpfsDistinct | cadastro/views.py:136-146 | an accepted user keeps the CPFs pairwise distinct; the list grows by one |
| Views.ValidarAluno | cadastro/views.py:186-191 | accepted exactly when the matrícula is 11 digits, the name has no digit and the (matrícula, professor) pair is new; the errors come in that order |
| Views.StudentRegistrationKeepsPairsDistinct | cadastro/views.py:190-197 | an accepted student keeps the (matrícula, professor) pairs distinct |
| Views.PosicoesFilter | cadastro/views.py:205-207 | the professor's k-th discipline on the page is the stored one at position k of the list |
| Views.PrimeiroAluno | cadastro/views.py:217 | the first of the professor's students with the matrícula, or `None` exactly when there is none |
| Views.EnrolmentSpec | cadastro/views.py:205-226 | `Matricular`: enrolment adds a student exactly when the index is valid, the matrícula is given, not yet enrolled and a student of the professor; it changes only the stored discipline at position `Posicoes[id]`, appending one entry named after the first matching student, with that matrícula, the student's name and no grades to that discipline, and changes nothing else |
| Views.EnrolmentKeepsMatriculasDistinct | cadastro/views.py:216-226 | the matrículas enrolled in each discipline stay unique |
| Views.Avaliar | cadastro/views.py:231-260 | without 1VA or 2VA there is no mean and no status; otherwise APV exactly when the mean of 1VA and 2VA is at least 7, or with 3VA the mean of three is, or with 3VA and the final grade the mean of four is, or without 3VA the mean of 1VA, 2VA and the final grade is; no status exactly when the two-grade mean is below 7, there is no final grade, and 3VA is missing or the three-grade mean is below 7; the mean shown is the one that decided, and a status exists exactly when a mean is shown |
| Views.RaisingGradesKeepsApproval | cadastro/views.py:236-258 | raising grades never undoes an approval or a decided status |
| Views.FinalGradeDecides | cadastro/views.py:241-253 | below 7 on two and three grades, a student has no status until the final grade, which then decides with the mean of four |
| Views.ComNota | cadastro/views.py:740-748 | the mapped field holds the grade; every other field is unchanged |
| Views.CampoNotaSpec | cadastro/views.py:739-744 | `CampoNota`: exactly `1VA`, `2VA`, `3VA` and `Final` are mapped, each to its own field |
| Views.FirstMatchUnique | cadastro/views.py:735-738 | there is only one first match of the nested search |
| Views.LocalizarInscrito | cadastro/views.py:735-738 | the nested loop finds the first enrolment of the matrícula in the professor's disciplines, or reports there is none |
| Views.ComNotaEm | cadastro/views.py:748 | only that enrolment of that discipline changes |
| Views.GradeKeepsMatriculasDistinct | cadastro/views.py:748 | writing a grade keeps the matrículas unique |
| Views.DeletionSpec | cadastro/views.py:818-821 | the filter removes every question with that id and keeps the others; the list shrinks exactly when one had that id |
| Views.QuantitySpec | cadastro/views.py:396-450 | `QuestoesFiltradas`, `QuantidadeValida`: a quantity is accepted exactly when 1 <= q <= the number of filtered questions, which are the professor's questions of the selected and filtered disciplines |
| Views.PorNomeIsTotalPreorder | cadastro/views.py:302 | ordering by lower-cased name is a total preorder |
| Views.StudentListSpec | cadastro/views.py:297-304 | `ListaAlunos`: the list is exactly the professor's students, sorted by lower-cased name, stable for equal names |
| Views.Dados.constructor | cadastro/views.py:26 | empty stored data satisfies the uniqueness invariant |
| Views.Dados.CadastroUsuario | cadastro/views.py:123-148 | appends the user exactly when validation passes; the other lists are unchanged; the invariant is preserved |
| Views.Dados.CadastrarAluno | cadastro/views.py:179-200 | appends exactly one student when validation passes; the invariant is preserved |
| Views.Dados.AdicionarAluno | cadastro/views.py:202-227 | the disciplines become the enrolment's result, or stay as they were |
| Views.Dados.AplicarNotaOmr | cadastro/views.py:719-752 | success exactly when the evaluation name is mapped and a match exists; then only the mapped field of the first match changes; otherwise nothing does |
| Views.Dados.ExcluirQuestao | cadastro/views.py:807-825 | without a session nothing changes; otherwise the list is the filter, and success means it shrank |

## Left out

- OpenCV (reading, resizing, thresholding, contours, masks, `countNonZero`, `HoughCircles`) is replaced by the given measurements described above; `imutils` sorting of contours is modelled by a stable sort on the bounding-box x.
- Floating point: circularity and fill percentages are given reals; grades are exact reals; `round(nota_percentual, 2)` in `calcular_nota` is not applied.
- OmrProcessor.MostlyBlank: the test `count('') > n * 0.7` is compared exactly as `10 * blanks > 7 * n`; Python's product `n * 0.7` is a rounded float and can differ from the exact value (for example, n = 90 gives 62.99999999999999).
- Exceptions other than the failed image load and the n = 0 division are not modelled: OpenCV failures, missing dictionary keys, a non-numeric `quantidade`. The failed load reaches the reader's handler (`cadastro/omr_processor.py:219-221`), which returns `[''] * n`. The division `height // 0` reaches the fallback's handler (`cadastro/omr_processor.py:477-479`), which returns `[]`. The grid and template handlers, and the OpenCV-failure paths into the other two handlers, are not reached in the model.
- Request methods: the `Dados` methods model only the POST request of `cadastro_usuario`, `cadastrar_aluno`, `detalhe_disciplina` and `aplicar_nota_omr`, and the DELETE request of `excluir_questao`. For any other method the source changes nothing: the first three render their page, and the last two answer "Método não permitido".
- The debug state of the reader (`debug`, `debug_dir`, `set_debug`), debug images and all `print` output: they only steer diagnostics.
- `process_uploaded_image` (temporary file handling) and the "image not found" early return of `analyze_real_image.py`.
- JSON persistence (`load_data`/`save_data`), the Django ORM, sessions, rendering and redirects; the logged-in professor is a parameter and a missing session value or request field is the empty string.
- The `id` migration loop of `gerar_prova` (it uses the clock and `hash`) and its `random.sample` selection, and the random simulation in `processar_omr`.
- `ResultadoAluno`'s get/set pair and other views not listed above (login, professor and discipline registration, editing questions).
- `detalhe_disciplina`'s `alunos_disponiveis` list and its creation of a missing `alunos` list: a discipline always has its list in the model.
- Unicode: `isdigit`, `upper` and `lower` are modelled on ASCII only.
- RealImage.AnalyzeColumn: requires every row to have at most five circles, which `organize_by_rows` guarantees; rows of other shapes are not modelled.
- The driver scripts (`analyze_coordinates.py`, `test_*.py`, `migrar_questoes.py`) and configuration files (`urls.py`, `forms.py`, settings).
