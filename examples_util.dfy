/** The helpers of the example scripts: a dict whose keys read as attributes,
    and the older form of the error-class filter, as a factory and as a
    configurable filter class. */
module ExamplesUtil {
  import opened Wrappers
  import opened Markup
  import opened PyString
  import FlaskrUtil

  // ---------------------------------------------------------------------------
  // AttributeDict

  /** `d.key = value` on a dict of `entries`, as written: only keys already in the
      dict may be assigned, and the value is stored under the literal key "key". */
  function Assign<V>(entries: map<string, V>, key: string, value: V): (r: Outcome<map<string, V>>)
    ensures r.Raise? <==> key !in entries
    ensures r.Raise? ==> r.exception == AttributeError
    ensures r.Return? ==> r.value.Keys == entries.Keys + {"key"} && r.value["key"] == value
    ensures r.Return? ==> forall k :: k in entries && k != "key" ==> r.value[k] == entries[k]
  {
    if key !in entries then Raise(AttributeError) else Return(entries["key" := value])
  }

  /** `d.key = value` as evidently intended: the value is stored under `key`. */
  function AssignIntended<V>(entries: map<string, V>, key: string, value: V): (r: Outcome<map<string, V>>)
    ensures r.Raise? <==> key !in entries
    ensures r.Raise? ==> r.exception == AttributeError
    ensures r.Return? ==> r.value.Keys == entries.Keys
    ensures r.Return? ==> forall k :: k in entries ==> r.value[k] == if k == key then value else entries[k]
  {
    if key !in entries then Raise(AttributeError) else Return(entries[key := value])
  }

  /** A dict exposing its keys as attributes. */
  class AttributeDict<V> {
    var entries: map<string, V>

    constructor (entries: map<string, V>)
      ensures this.entries == entries
    {
      this.entries := entries;
    }

    /** `__getattr__(key)`: the entry for a key the dict holds; for any other key
        the fallback to the object's own attributes raises AttributeError. */
    function GetAttr(key: string): (r: Outcome<V>)
      reads this
      ensures r.Return? <==> key in entries
      ensures r.Return? ==> r.value == entries[key]
      ensures r.Raise? ==> r.exception == AttributeError
    {
      if key in entries then Return(entries[key]) else Raise(AttributeError)
    }

    /** `__setattr__(key, value)`: raises AttributeError, changing nothing, for a key
        the dict does not hold; otherwise writes `self['key'] = value`. */
    method SetAttr(key: string, value: V) returns (r: Outcome<()>)
      modifies this
      ensures var u := Assign(old(entries), key, value);
        if u.Return? then r == Return(()) && entries == u.value
        else r == Raise(u.exception) && entries == old(entries)
    {
      if key !in entries {
        r := Raise(AttributeError);
        return;
      }
      entries := entries["key" := value];
      r := Return(());
    }
  }

  /** As written, assigning an existing attribute other than `key` does not change
      it: reading it back gives the old value, and the new one sits under "key". */
  lemma SetAttrMissesKey<V>(entries: map<string, V>, key: string, value: V)
    requires key in entries && key != "key"
    ensures var u := Assign(entries, key, value);
      u.Return? && u.value[key] == entries[key] && u.value["key"] == value
  {
  }

  /** Concretely: on `{'name': 'a'}`, `d.name = 'b'` leaves `d.name == 'a'`. */
  lemma SetAttrCounterexample()
    ensures Assign(map["name" := "a"], "name", "b") == Return(map["name" := "a", "key" := "b"])
  {
  }

  // ---------------------------------------------------------------------------
  // The older filter: error_filter_factory and AttributeCSSClassFilter

  /** The `class` rewrite both older filters make once they decide to act
      (`applies`): with no `class` attribute, `class` is set to the filter's class;
      with one, the two-argument `' '.join(old, cssClass)` raises TypeError before
      anything is written. When the filter does not act, nothing changes. */
  function ClassUpdate(attrs: map<string, string>, applies: bool, cssClass: string): (r: Outcome<map<string, string>>)
    ensures r.Raise? <==> applies && "class" in attrs
    ensures r.Raise? ==> r.exception == TypeError
    ensures !applies ==> r == Return(attrs)
    ensures r.Return? && applies ==> r.value == attrs["class" := cssClass]
  {
    if !applies then Return(attrs)
    else if "class" in attrs then Raise(TypeError)
    else Return(attrs["class" := cssClass])
  }

  /** The rewrite as evidently intended, joining the list `[current, cssClass]`. */
  function ClassUpdateIntended(attrs: map<string, string>, applies: bool, cssClass: string): (r: map<string, string>)
    ensures !applies ==> r == attrs
    ensures applies ==> r.Keys == attrs.Keys + {"class"}
    ensures forall k :: k in attrs && k != "class" ==> r[k] == attrs[k]
  {
    if !applies then attrs
    else if "class" in attrs then attrs["class" := Join([attrs["class"], cssClass])]
    else attrs["class" := cssClass]
  }

  /** The older filter, as written, fails on every tag it acts on that already has
      a class, where the clean filter keeps the old class tokens and appends the new. */
  lemma PresentClassRaises(attrs: map<string, string>, bind: Bind, cssClass: string)
    requires bind.HasErrors() && "class" in attrs
    ensures ClassUpdate(attrs, true, cssClass) == Raise(TypeError)
    ensures Split(FlaskrUtil.Annotate(attrs, Some(bind), cssClass)["class"])
         == Split(attrs["class"]) + Split(cssClass)
  {
    FlaskrUtil.AppendsClassToken(attrs, bind, cssClass);
  }

  /** Whenever the older filter returns, its attributes are those of the clean filter. */
  lemma ClassUpdateAgreesWithAnnotate(attrs: map<string, string>, bind: Option<Bind>, cssClass: string)
    ensures var u := ClassUpdate(attrs, bind.Some? && bind.value.HasErrors(), cssClass);
      u.Return? ==> u.value == FlaskrUtil.Annotate(attrs, bind, cssClass)
  {
  }

  /** The intended rewrite yields the same class tokens as the clean filter: the old
      tokens, in order, followed by the tokens of the filter's class (that class itself
      when it is one token). */
  lemma IntendedAppendsClassToken(attrs: map<string, string>, bind: Bind, cssClass: string)
    requires bind.HasErrors()
    ensures Split(ClassUpdateIntended(attrs, true, cssClass)["class"])
         == Split(Get(attrs, "class", "")) + Split(cssClass)
    ensures IsToken(cssClass) ==>
      Split(ClassUpdateIntended(attrs, true, cssClass)["class"]) == Split(Get(attrs, "class", "")) + [cssClass]
    ensures Split(ClassUpdateIntended(attrs, true, cssClass)["class"])
         == Split(FlaskrUtil.Annotate(attrs, Some(bind), cssClass)["class"])
  {
    FlaskrUtil.AppendsClassToken(attrs, bind, cssClass);
    if IsToken(cssClass) {
      SplitToken(cssClass);
    }
    if "class" in attrs {
      var current := attrs["class"];
      assert [current, cssClass][1..] == [cssClass];
      assert Join([current, cssClass]) == current + [' '] + cssClass;
      SplitAroundSpace(current, ' ', cssClass);
    } else {
      assert Split("") == [];
    }
  }

  /** `error_filter`, the closure the older factory returns. */
  class ErrorFilter {
    const cssClass: string

    constructor (cssClass: string)
      ensures this.cssClass == cssClass
    {
      this.cssClass := cssClass;
    }

    /** `error_filter(tagname, attributes, contents, context, bind)`: acts when `bind`
        is present and has errors; returns `contents`, or raises what the rewrite
        raises with `attributes` untouched. */
    method Call<C, X>(tagname: string, attributes: Attributes, contents: C, context: X, bind: Option<Bind>)
      returns (r: Outcome<C>)
      modifies attributes
      ensures var u := ClassUpdate(old(attributes.entries), bind.Some? && bind.value.HasErrors(), cssClass);
        if u.Return? then r == Return(contents) && attributes.entries == u.value
        else r == Raise(u.exception) && attributes.entries == old(attributes.entries)
    {
      if bind.Some? && bind.value.HasErrors() {
        if "class" in attributes.entries {
          r := Raise(TypeError);
          return;
        }
        attributes.entries := attributes.entries["class" := cssClass];
      }
      r := Return(contents);
    }
  }

  /** The older `error_filter_factory(class_='error')`; unlike the clean one it sets no `tags`. */
  method ErrorFilterFactory(cssClass: string := "error") returns (f: ErrorFilter)
    ensures fresh(f) && f.cssClass == cssClass
  {
    f := new ErrorFilter(cssClass);
  }

  /** A markup generation filter that appends `cssClass` when `errorPredicate` holds
      of the bound element. `tags` is stored for the generator and not used here. */
  class AttributeCSSClassFilter {
    var cssClass: string
    var tags: Option<seq<string>>
    var errorPredicate: Bind -> bool

    /** `_has_error`: the element's error list, which is truthy exactly when it is not empty. */
    static function HasError(bind: Bind): (r: bool)
      ensures r <==> |bind.errors| > 0
    {
      bind.HasErrors()
    }

    /** `__init__(class_='error', tags=None, predicate=None)`; a missing predicate
        falls back to `_has_error`. */
    constructor (cssClass: string := "error", tags: Option<seq<string>> := None,
                 errorPredicate: Option<Bind -> bool> := None)
      ensures this.cssClass == cssClass && this.tags == tags
      ensures this.errorPredicate == if errorPredicate.Some? then errorPredicate.value else HasError
    {
      this.cssClass := cssClass;
      this.tags := tags;
      var p: Bind -> bool := if errorPredicate.Some? then errorPredicate.value else HasError;
      this.errorPredicate := p;
    }

    /** `__call__(tagname, attributes, contents, context, bind)`: acts when `bind` is
        present and the predicate holds of it; returns `contents`, or raises what the
        rewrite raises with `attributes` untouched. */
    method Call<C, X>(tagname: string, attributes: Attributes, contents: C, context: X, bind: Option<Bind>)
      returns (r: Outcome<C>)
      modifies attributes
      ensures var u := ClassUpdate(old(attributes.entries), bind.Some? && errorPredicate(bind.value), cssClass);
        if u.Return? then r == Return(contents) && attributes.entries == u.value
        else r == Raise(u.exception) && attributes.entries == old(attributes.entries)
    {
      if bind.Some? && errorPredicate(bind.value) {
        if "class" in attributes.entries {
          r := Raise(TypeError);
          return;
        }
        attributes.entries := attributes.entries["class" := cssClass];
      }
      r := Return(contents);
    }
  }
}
