# Error-class markup filter, in Dafny

This project models the error-annotation filter of the flatland form examples.
The form library's HTML generator calls a filter once per generated tag, with
the tag name, the tag's attribute dictionary, its rendered contents, the render
context and the form element the tag is bound to (or `None`). When the bound
element has validation errors, the filter adds a CSS class (by default `error`)
to the tag's `class` attribute. It changes the dictionary in place and hands the
contents back unchanged.

The repository has three versions of the filter, and all three are modelled:

- `FlaskrUtil` (`flaskr_flatland/util.py`) is the clean version. It splits the
  old `class` value on whitespace, appends the class and joins with single
  spaces. The factory sets `tags = ('input',)` on the filter, and a module-level
  filter is built with the defaults.
- `ExamplesUtil` (`examples/util.py`) has the older factory and the configurable
  `AttributeCSSClassFilter`. The configurable filter stores a class, a `tags`
  value and a predicate over the bound element. When either version acts on a
  tag that already has a `class` attribute, it calls `str.join` with two
  arguments, and Python raises `TypeError` there. The model keeps that behaviour as a raised outcome, with
  nothing written. The same file also has `AttributeDict`, a dict whose keys can
  be read as attributes and assigned as attributes.

Supporting modules:

- `PyString` writes out Python's `str.split()` with no separator (`Split`) and
  `' '.join(...)` (`Join`). It proves that splitting a joined token list gives the list
  back, that joining tokens never produces leading, trailing or doubled
  whitespace, and that splitting keeps every non-whitespace character in order.
- `Markup` holds the bound element (`Bind`, only its error list), the
  attribute dictionary, and `Get`, which is `dict.get(key, default)`, used for
  `attributes.get('class', '')`. The dictionary is a class with a `map` field, because the
  generator keeps it and reads it after the filter has run.
- `Wrappers` holds `Option` and `Outcome`. An `Outcome` is a returned value or a
  raised Python exception.

Each filter is a class, because the source's filters are objects with
attributes. Its `Call` method is proved against a function of the old
attributes: `FlaskrUtil.Annotate` or `ExamplesUtil.ClassUpdate`. The lemmas
about those functions hold the properties.

Three facts about the code that the model keeps:

- No version checks whether the class is already present.
  `FlaskrUtil.NotIdempotent` and `FlaskrUtil.ErrorBecomesErrorError` prove the
  class is appended again.
- The two older versions raise `TypeError` when they act on a tag that already
  has a `class` attribute. The older factory's filter acts when `bind` is
  present and has errors. `AttributeCSSClassFilter` acts when `bind` is present
  and its predicate holds.
- The code reads `bind.errors` directly. Here every `Bind` has an error list.

## Model

| member | source | states |
|---|---|---|
| `PyString.Split` | examples/flaskr_flatland/flaskr_flatland/util.py:10 | every item `split()` yields is a non-empty string with no whitespace |
| `PyString.SplitKeepsCharacters` | examples/flaskr_flatland/flaskr_flatland/util.py:10 | `split()` keeps every non-whitespace character, in order, and drops only whitespace |
| `PyString.SplitAroundSpace` | examples/flaskr_flatland/flaskr_flatland/util.py:10 | splitting `a + c + b` around a whitespace character `c` gives `split(a) + split(b)` |
| `PyString.SplitJoin` | examples/flaskr_flatland/flaskr_flatland/util.py:10-11 | round trip: splitting the space-joined tokens gives exactly the tokens back |
| `PyString.SplitJoinAppend` | examples/flaskr_flatland/flaskr_flatland/util.py:10-11 | splitting tokens joined with one more string gives the tokens, then that string's own tokens |
| `PyString.JoinNormalised` | examples/flaskr_flatland/flaskr_flatland/util.py:11 | joining tokens gives a non-empty string with no leading, trailing or doubled whitespace, and no whitespace except single spaces |
| `PyString.SplitJoinSplit` | examples/flaskr_flatland/flaskr_flatland/util.py:10-11 | rejoining a split string normalises its whitespace and keeps its tokens |
| `FlaskrUtil.Annotate` | examples/flaskr_flatland/flaskr_flatland/util.py:8-12 | with `bind` None or without errors the attributes are exactly the old ones, and no `class` key is added; with errors the keys are the old keys plus `class`; every key other than `class` keeps its value |
| `FlaskrUtil.ErrorFilter.Call` | examples/flaskr_flatland/flaskr_flatland/util.py:8-12 | returns `contents` unchanged; the attribute dictionary becomes `Annotate` of its old value; the tag name and the context play no part |
| `FlaskrUtil.ErrorFilterFactory` | examples/flaskr_flatland/flaskr_flatland/util.py:2-14 | a new filter for the given class, `error` by default, whose `tags` is `('input',)` |
| `FlaskrUtil.DefaultErrorFilter` | examples/flaskr_flatland/flaskr_flatland/util.py:16 | the module-level filter appends `error` and advertises `('input',)` |
| `FlaskrUtil.AbsentClassBecomesCssClass` | examples/flaskr_flatland/flaskr_flatland/util.py:10-11 | with errors and no `class` attribute, `class` becomes exactly the filter's class |
| `FlaskrUtil.AppendsClassToken` | examples/flaskr_flatland/flaskr_flatland/util.py:10-11 | with errors, the new class tokens are the old tokens, in order, followed by the tokens of the filter's class, which for a one-token class is that class itself |
| `FlaskrUtil.ClassIsNormalised` | examples/flaskr_flatland/flaskr_flatland/util.py:10-11 | with errors and a non-empty class without leading, trailing or doubled whitespace, the rewritten `class` has no leading, trailing or doubled whitespace |
| `FlaskrUtil.NotIdempotent` | examples/flaskr_flatland/flaskr_flatland/util.py:11 | a second run appends the class a second time, so two runs differ from one |
| `FlaskrUtil.RequiredBecomesRequiredError` | examples/flaskr_flatland/flaskr_flatland/util.py:9-11 | `{'class': 'required'}` with one error becomes `{'class': 'required error'}` |
| `FlaskrUtil.ErrorBecomesErrorError` | examples/flaskr_flatland/flaskr_flatland/util.py:11 | no deduplication: `{'class': 'error'}` becomes `{'class': 'error error'}` |
| `ExamplesUtil.AttributeDict.GetAttr` | examples/util.py:10-17 | a key the dict holds reads as its value; any other key raises AttributeError |
| `ExamplesUtil.Assign` | examples/util.py:19-22 | assigning a key the dict does not hold raises AttributeError; otherwise the value goes under "key" and every other entry is kept |
| `ExamplesUtil.AttributeDict.SetAttr` | examples/util.py:19-22 | on a missing key, raises AttributeError and leaves the dict unchanged; otherwise the dict becomes `Assign` of its old value |
| `ExamplesUtil.SetAttrMissesKey` | examples/util.py:22 | after assigning an existing attribute other than `key`, that attribute still holds its old value and the new value sits under "key" |
| `ExamplesUtil.SetAttrCounterexample` | examples/util.py:22 | on `{'name': 'a'}`, assigning `name = 'b'` gives `{'name': 'a', 'key': 'b'}` |
| `ExamplesUtil.AssignIntended` | examples/util.py:19-22 | the intended assignment: a missing key raises AttributeError; an existing key reads back as the new value and nothing else changes |
| `ExamplesUtil.ClassUpdate` | examples/util.py:32-36 | when the filter does not act, nothing changes; when it acts, a present `class` raises TypeError, and an absent one is set to the filter's class |
| `ExamplesUtil.PresentClassRaises` | examples/util.py:33-34 | with errors and a `class` attribute the older filter raises TypeError, where the clean filter keeps the old class tokens and appends the class's tokens |
| `ExamplesUtil.ClassUpdateAgreesWithAnnotate` | examples/util.py:32-36 | whenever the older filter returns, the attributes equal those of the clean filter |
| `ExamplesUtil.ClassUpdateIntended` | examples/util.py:34 | the intended rewrite (joining the list of the old class and the new one) changes only `class`, and only when the filter acts |
| `ExamplesUtil.IntendedAppendsClassToken` | examples/util.py:34 | for any class, the intended rewrite gives the old class tokens followed by the class's tokens (the class itself when it is one token), the same tokens the clean filter gives |
| `ExamplesUtil.ErrorFilter.Call` | examples/util.py:31-37 | acts only when `bind` is present and has errors; returns `contents`, or raises TypeError with the attributes untouched |
| `ExamplesUtil.ErrorFilterFactory` | examples/util.py:25-38 | a new older-style filter for the given class, `error` by default |
| `ExamplesUtil.AttributeCSSClassFilter.HasError` | examples/util.py:54-56 | the default predicate holds exactly when the element's error list is not empty |
| `ExamplesUtil.AttributeCSSClassFilter.constructor` | examples/util.py:58-61 | stores the class (`error` by default) and `tags` (None by default); without a predicate, the predicate is `HasError` |
| `ExamplesUtil.AttributeCSSClassFilter.Call` | examples/util.py:63-69 | acts only when `bind` is present and the predicate holds; then sets an absent `class` to the filter's class, or raises TypeError with the attributes untouched; otherwise returns `contents` |

## Left out

- The tag name and the render context are taken and ignored, as in the source. `contents` and `context` are type parameters.
- The generator's use of `tags` to choose which filters to call is the caller's job. Here `tags` is only stored.
- `AttributeDict.GetAttr`: only the present-key branch and "a missing key raises AttributeError" are modelled. The fallback into Python's attribute machinery, with its `default` argument, is not. Python's normal attribute lookup runs before `__getattr__`, so names such as `keys` never reach it. That lookup is not modelled either.
- Python truthiness: `bind.errors` is modelled as "the list is not empty". A predicate's result is modelled as a `bool`.
- A bound value with no `errors` attribute would make the code raise AttributeError. This model does not include such a value.
- Whitespace: `IsSpace` is the whitespace set of Python 2.7's `unicode.isspace`, which includes U+180E. Python 3's `str.isspace` no longer includes U+180E. A Python 2 byte string splits on ASCII whitespace only. Neither of those two cases is modelled separately.
- Attribute values are strings. Non-string values in the attribute dictionary are not modelled.
- `FlaskrUtil.ClassIsNormalised`: stated only for a non-empty class with no leading, trailing or doubled whitespace. An empty or whitespace-padded class leaves whitespace in the result in Python too: with class `''`, a `class` of `'x'` becomes `'x '`.
- The view functions, the form schemas, the Genshi template demo and the search-index demo are not part of this model. They are framework glue, or calls into libraries whose code is not shown.

## Findings

| source | as written | input that shows it | evidently intended | confidence | as-written member | corrected member |
|---|---|---|---|---|---|---|
| examples/util.py:34 | `error_filter` calls `str.join` with two arguments when it acts on a tag whose `class` is set, so Python raises TypeError | `attributes = {'class': 'required'}`, bind errors `['must not be blank']` | join the list of the old class and the new one, giving `'required error'` | high, not executed | `ExamplesUtil.PresentClassRaises` | `ExamplesUtil.ClassUpdateIntended` |
| examples/util.py:66 | `AttributeCSSClassFilter.__call__` has the same two-argument `str.join` | `attributes = {'class': 'required'}`, default predicate, bind errors `['x']` | as above, using the filter's class | high, not executed | `ExamplesUtil.PresentClassRaises` | `ExamplesUtil.IntendedAppendsClassToken` |
| examples/util.py:22 | `__setattr__` stores every value under the literal key `'key'` | `d = AttributeDict(name='a')`, then `d.name = 'b'`: `d.name` is still `'a'` | store under the given key | high, not executed | `ExamplesUtil.SetAttrCounterexample` | `ExamplesUtil.AssignIntended` |

The `Call` methods model the code as written, so the failures stay visible. The
corrected definitions sit beside them. The repository's own clean filter,
`FlaskrUtil.Annotate`, is the version the rest of the model builds on, and
`IntendedAppendsClassToken` proves that the corrected rewrite gives it the same
class tokens.
