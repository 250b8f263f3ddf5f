/** The HTML generation filter of the flaskr_flatland application: on a tag bound
    to a form element that has validation errors, it appends a CSS class to the
    tag's `class` attribute, keeping the classes already there. */
module FlaskrUtil {
  import opened Wrappers
  import opened Markup
  import opened PyString

  /** The class the factory appends when it is given none. */
  const DefaultClass: string := "error"

  /** The tags the filter advertises to the generator. */
  const FilterTags: seq<string> := ["input"]

  /** The attributes after one run of the filter: unchanged unless `bind` is present
      and has errors; then the `class` attribute (absent reads as "") is split on
      whitespace, `cssClass` is appended and the tokens are joined by single spaces. */
  function Annotate(attrs: map<string, string>, bind: Option<Bind>, cssClass: string): (r: map<string, string>)
    ensures !(bind.Some? && bind.value.HasErrors()) ==> r == attrs
    ensures bind.Some? && bind.value.HasErrors() ==> r.Keys == attrs.Keys + {"class"}
    ensures forall k :: k in attrs && k != "class" ==> r[k] == attrs[k]
  {
    if bind.Some? && bind.value.HasErrors() then
      attrs["class" := Join(Split(Get(attrs, "class", "")) + [cssClass])]
    else
      attrs
  }

  /** The closure `error_filter` that the factory returns. Python lets one set
      attributes on a function object; `tags` is absent until the factory sets it. */
  class ErrorFilter {
    const cssClass: string
    var tags: Option<seq<string>>

    constructor (cssClass: string)
      ensures this.cssClass == cssClass && tags == None
    {
      this.cssClass := cssClass;
      tags := None;
    }

    /** `error_filter(tagname, attributes, contents, context, bind)`: rewrites
        `attributes` in place and hands `contents` back. The tag name and the
        render context are not looked at. */
    method Call<C, X>(tagname: string, attributes: Attributes, contents: C, context: X, bind: Option<Bind>)
      returns (r: C)
      modifies attributes
      ensures r == contents
      ensures attributes.entries == Annotate(old(attributes.entries), bind, cssClass)
    {
      if bind.Some? && bind.value.HasErrors() {
        var currentClasses := Split(Get(attributes.entries, "class", ""));
        attributes.entries := attributes.entries["class" := Join(currentClasses + [cssClass])];
      }
      r := contents;
    }
  }

  /** `error_filter_factory(class_='error')`: a new filter for `cssClass` whose
      `tags` attribute is set to `('input',)`. */
  method ErrorFilterFactory(cssClass: string := DefaultClass) returns (f: ErrorFilter)
    ensures fresh(f)
    ensures f.cssClass == cssClass && f.tags == Some(FilterTags)
  {
    f := new ErrorFilter(cssClass);
    f.tags := Some(FilterTags);
  }

  /** The module-level `error_filter`, built with the factory's defaults. */
  method DefaultErrorFilter() returns (f: ErrorFilter)
    ensures fresh(f)
    ensures f.cssClass == "error" && f.tags == Some(["input"])
  {
    f := ErrorFilterFactory();
  }

  /** With errors and no `class` attribute, `class` becomes exactly the filter's class. */
  lemma AbsentClassBecomesCssClass(attrs: map<string, string>, bind: Bind, cssClass: string)
    requires bind.HasErrors() && "class" !in attrs
    ensures Annotate(attrs, Some(bind), cssClass)["class"] == cssClass
  {
  }

  /** With errors, the new class tokens are the old ones, in order, followed by the
      tokens of the filter's class (that class itself when it is one token); nothing
      is removed and nothing is deduplicated. */
  lemma AppendsClassToken(attrs: map<string, string>, bind: Bind, cssClass: string)
    requires bind.HasErrors()
    ensures Split(Annotate(attrs, Some(bind), cssClass)["class"]) == Split(Get(attrs, "class", "")) + Split(cssClass)
    ensures IsToken(cssClass) ==>
      Split(Annotate(attrs, Some(bind), cssClass)["class"]) == Split(Get(attrs, "class", "")) + [cssClass]
  {
    SplitJoinAppend(Split(Get(attrs, "class", "")), cssClass);
    if IsToken(cssClass) {
      SplitToken(cssClass);
    }
  }

  /** With errors and a non-empty normalised class (one token, or several separated by
      single spaces), the rewritten `class` value has no leading, trailing or doubled
      whitespace, and no whitespace other than single spaces. */
  lemma ClassIsNormalised(attrs: map<string, string>, bind: Bind, cssClass: string)
    requires bind.HasErrors() && Normalised(cssClass) && cssClass != ""
    ensures Normalised(Annotate(attrs, Some(bind), cssClass)["class"])
  {
    JoinAppendNormalised(Split(Get(attrs, "class", "")), cssClass);
  }

  /** Running the filter twice appends the class twice, so the filter is not idempotent. */
  lemma NotIdempotent(attrs: map<string, string>, bind: Bind, cssClass: string)
    requires bind.HasErrors() && IsToken(cssClass)
    ensures var once := Annotate(attrs, Some(bind), cssClass);
      var twice := Annotate(once, Some(bind), cssClass);
      && Split(twice["class"]) == Split(Get(attrs, "class", "")) + [cssClass, cssClass]
      && twice != once
  {
    var once := Annotate(attrs, Some(bind), cssClass);
    AppendsClassToken(attrs, bind, cssClass);
    AppendsClassToken(once, bind, cssClass);
    assert Get(once, "class", "") == once["class"];
    assert Split(Get(attrs, "class", "")) + [cssClass] + [cssClass]
        == Split(Get(attrs, "class", "")) + [cssClass, cssClass];
    var twice := Annotate(once, Some(bind), cssClass);
    assert |Split(twice["class"])| != |Split(once["class"])|;
  }

  /** `{'class': 'required'}` on an element with an error becomes `{'class': 'required error'}`. */
  lemma RequiredBecomesRequiredError()
    ensures Annotate(map["class" := "required"], Some(Bind(["must not be blank"])), DefaultClass)
         == map["class" := "required error"]
  {
    var attrs := map["class" := "required"];
    assert Get(attrs, "class", "") == "required";
    assert IsToken("required");
    SplitToken("required");
    JoinAppend(["required"], DefaultClass);
    assert Join(["required"] + [DefaultClass]) == "required error";
  }

  /** A class that is already there is appended again: `error` becomes `error error`. */
  lemma ErrorBecomesErrorError()
    ensures Annotate(map["class" := "error"], Some(Bind(["x"])), DefaultClass)
         == map["class" := "error error"]
  {
    var attrs := map["class" := "error"];
    assert Get(attrs, "class", "") == "error";
    assert IsToken("error");
    SplitToken("error");
    JoinAppend(["error"], DefaultClass);
    assert Join(["error"] + [DefaultClass]) == "error error";
  }
}
