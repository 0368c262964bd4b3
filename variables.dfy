/**
 * The equivalence network of model variables and the XML text form of a
 * variable (src/variable.cpp).
 *
 * A variable keeps an ordered list of weak links to the variables declared
 * equivalent to it. A weak link never keeps its target alive: here a link is
 * the target's identity (a `Variable` reference), and which variables are
 * still alive is the set `live` handed to every operation that resolves a
 * link. A variable that is destroyed leaves `live`; nothing is removed from
 * any link list, so its entries decay in place.
 */
module Variables {
  import opened Wrappers

  /** `Variable::INTERFACE_TYPES`. */
  datatype InterfaceType =
    | InterfaceNone
    | InterfacePrivate
    | InterfacePublic
    | InterfacePublicAndPrivate

  /** The serialisation formats: XML, and every other format. */
  datatype Format = FormatXml | FormatOther

  /** What `std::vector::at` throws for an index past the end. */
  datatype Error = OutOfRange

  // ------------------------------------------------------------------------
  // Weak links

  /** `weak_ptr::lock`: the target if it is still alive, nothing otherwise. */
  function Lock(w: Variable, live: set<Variable>): Option<Variable>
  {
    if w in live then Some(w) else None
  }

  /**
   * `findEquivalentVariable`: the `find_if` over a link list for the first
   * entry whose `lock()` is the candidate. The position `|links|` plays the
   * part of `end()`.
   */
  function FindLink(links: seq<Variable>, candidate: Variable, live: set<Variable>): (r: nat)
    ensures r <= |links|
    ensures r < |links| ==> Lock(links[r], live) == Some(candidate)
    ensures forall j :: 0 <= j < r ==> Lock(links[j], live) != Some(candidate)
  {
    if links == [] then 0
    else if Lock(links[0], live) == Some(candidate) then 0
    else 1 + FindLink(links[1..], candidate, live)
  }

  /** A link list in which no target occurs twice. */
  ghost predicate Distinct(links: seq<Variable>)
  {
    forall i, j :: 0 <= i < j < |links| ==> links[i] != links[j]
  }

  /**
   * The link list after `setEquivalentTo(v)` for a live `v`: an entry that
   * already locks to `v` is kept as the only one, otherwise `v` goes last.
   */
  function AppendIfAbsent(links: seq<Variable>, v: Variable): (r: seq<Variable>)
    ensures v in r
    ensures links <= r && |r| <= |links| + 1
    ensures v in links ==> r == links
    ensures Distinct(links) ==> Distinct(r)
  {
    if v in links then links else links + [v]
  }

  /** How many entries of a link list still lock to a live variable. */
  function LiveLinkCount(links: seq<Variable>, live: set<Variable>): nat
  {
    if links == [] then 0
    else (if links[0] in live then 1 else 0) + LiveLinkCount(links[1..], live)
  }

  /**
   * `equivalentVariableCount` is the raw length of the list: it counts
   * decayed entries too, and equals the number of live links exactly when
   * no entry has decayed.
   */
  lemma {:induction false} DecayedLinksStillCounted(links: seq<Variable>, live: set<Variable>)
    ensures LiveLinkCount(links, live) <= |links|
    ensures LiveLinkCount(links, live) == |links| <==> forall i :: 0 <= i < |links| ==> links[i] in live
  {
    if links != [] {
      DecayedLinksStillCounted(links[1..], live);
      assert forall i :: 1 <= i < |links| ==> links[i] == links[1..][i - 1];
    }
  }

  /**
   * Equivalence is meant to be symmetric: within `network`, `y` is linked
   * from `x` exactly when `x` is linked from `y`.
   */
  ghost predicate Symmetric(network: set<Variable>)
    reads network
  {
    forall x, y | x in network && y in network :: y in x.equivalents <==> x in y.equivalents
  }

  // ------------------------------------------------------------------------
  // The text form

  /** `interfaceTypeToString`. */
  function InterfaceTypeToString(t: InterfaceType): string
  {
    match t
    case InterfaceNone => "none"
    case InterfacePrivate => "private"
    case InterfacePublic => "public"
    case InterfacePublicAndPrivate => "public_and_private"
  }

  /** The inverse of `InterfaceTypeToString`, for reading the text form back. */
  function InterfaceTypeFromString(s: string): Option<InterfaceType>
  {
    if s == "none" then Some(InterfaceNone)
    else if s == "private" then Some(InterfacePrivate)
    else if s == "public" then Some(InterfacePublic)
    else if s == "public_and_private" then Some(InterfacePublicAndPrivate)
    else None
  }

  /**
   * Each interface type has its own text, which reads back as that type and
   * holds no quote.
   */
  lemma InterfaceTypeRoundTrip(t: InterfaceType)
    ensures InterfaceTypeFromString(InterfaceTypeToString(t)) == Some(t)
    ensures '"' !in InterfaceTypeToString(t)
  {
  }

  /** The variable's fields that its text form shows. */
  datatype Attributes = Attributes(name: string, units: Option<string>, initialValue: string, interfaceType: InterfaceType)

  /** One XML attribute, `␣key="value"`, with the value written unescaped. */
  function Attribute(key: string, value: string): string
  {
    " " + key + "=\"" + value + "\""
  }

  /**
   * The XML element of a variable: `<variable`, then the attributes name,
   * units, initial_value and interface in that order, each only when the
   * name is non-empty, the units are set, the initial value is non-empty and
   * the interface is not none, then `/>`.
   */
  function XmlElement(a: Attributes): string
  {
    "<variable"
    + OptionalAttribute(|a.name| > 0, "name", a.name)
    + OptionalAttribute(a.units.Some?, "units", if a.units.Some? then a.units.value else "")
    + OptionalAttribute(|a.initialValue| > 0, "initial_value", a.initialValue)
    + OptionalAttribute(a.interfaceType != InterfaceNone, "interface", InterfaceTypeToString(a.interfaceType))
    + "/>"
  }

  /** The position of the first `"` in `s`, or `|s|` when there is none. */
  function IndexOfQuote(s: string): (k: nat)
    ensures k <= |s|
    ensures k < |s| ==> s[k] == '"'
    ensures forall j :: 0 <= j < k ==> s[j] != '"'
  {
    if s == [] then 0
    else if s[0] == '"' then 0
    else 1 + IndexOfQuote(s[1..])
  }

  /**
   * Reads the attribute `key` at the start of `s`, its value running up to
   * the next `"`; gives the value and what follows, or nothing and `s`
   * untouched when `s` does not start with that attribute.
   */
  function ReadAttribute(key: string, s: string): (Option<string>, string)
  {
    var opening := " " + key + "=\"";
    if opening <= s then
      var rest := s[|opening|..];
      var k := IndexOfQuote(rest);
      if k < |rest| then (Some(rest[..k]), rest[k + 1..]) else (None, s)
    else (None, s)
  }

  /** Reads an XML element written by `XmlElement` back into its attributes. */
  function ParseXmlElement(s: string): Option<Attributes>
  {
    if "<variable" <= s then
      var (name, s1) := ReadAttribute("name", s[|"<variable"|..]);
      var (units, s2) := ReadAttribute("units", s1);
      var (initialValue, s3) := ReadAttribute("initial_value", s2);
      var (interface, s4) := ReadAttribute("interface", s3);
      var t := if interface.Some? then InterfaceTypeFromString(interface.value) else Some(InterfaceNone);
      if s4 == "/>" && t.Some? then
        Some(Attributes(
               if name.Some? then name.value else "",
               units,
               if initialValue.Some? then initialValue.value else "",
               t.value))
      else None
    else None
  }

  /** The attribute `key` when `present`, nothing otherwise: one slot of the element. */
  function OptionalAttribute(present: bool, key: string, value: string): string
  {
    if present then Attribute(key, value) else ""
  }

  /** `s` does not start with the attribute `key`. */
  predicate NoAttributeAt(key: string, s: string)
  {
    !((" " + key + "=\"") <= s)
  }

  /**
   * An attribute whose key differs from `key` at position `d` does not
   * start with `key` either, so `t` keeps not starting with it.
   */
  lemma NoAttributeAfter(key: string, present: bool, other: string, value: string, t: string, d: nat)
    requires d < |key| && d < |other| && key[d] != other[d]
    requires NoAttributeAt(key, t)
    ensures NoAttributeAt(key, OptionalAttribute(present, other, value) + t)
  {
    var s := OptionalAttribute(present, other, value) + t;
    if present {
      assert s[1 + d] == other[d];
      assert (" " + key + "=\"")[1 + d] == key[d];
    } else {
      assert s == t;
    }
  }

  /**
   * Reading an optional attribute back: its value when it is present, and
   * nothing otherwise, as long as what follows does not itself start with
   * that attribute.
   */
  lemma ReadOptionalAttribute(present: bool, key: string, value: string, t: string)
    requires NoAttributeAt(key, t)
    requires '"' !in value
    ensures ReadAttribute(key, OptionalAttribute(present, key, value) + t)
         == (if present then Some(value) else None, t)
  {
    var opening := " " + key + "=\"";
    if present {
      var s := Attribute(key, value) + t;
      assert s == opening + (value + "\"" + t);
      var rest := s[|opening|..];
      assert rest == value + "\"" + t;
      assert rest[|value|] == '"';
      var k := IndexOfQuote(rest);
      assert forall j :: 0 <= j < |value| ==> rest[j] == value[j];
      assert k == |value|;
      assert rest[..k] == value;
      assert rest[k + 1..] == t;
    } else {
      assert OptionalAttribute(present, key, value) + t == t;
    }
  }

  /**
   * The text form can be read back: for values without a `"`, parsing the
   * element gives exactly the attributes it was written from.
   */
  lemma XmlRoundTrip(a: Attributes)
    requires '"' !in a.name && '"' !in a.initialValue
    requires a.units.Some? ==> '"' !in a.units.value
    ensures ParseXmlElement(XmlElement(a)) == Some(a)
  {
    var unitsName := if a.units.Some? then a.units.value else "";
    var interface := InterfaceTypeToString(a.interfaceType);
    InterfaceTypeRoundTrip(a.interfaceType);
    var hasName, hasUnits := |a.name| > 0, a.units.Some?;
    var hasInitial, hasInterface := |a.initialValue| > 0, a.interfaceType != InterfaceNone;
    var f := OptionalAttribute(hasInterface, "interface", interface);
    var i := OptionalAttribute(hasInitial, "initial_value", a.initialValue);
    var u := OptionalAttribute(hasUnits, "units", unitsName);
    var n := OptionalAttribute(hasName, "name", a.name);
    var s3 := f + "/>";
    var s2 := i + s3;
    var s1 := u + s2;
    var s0 := n + s1;
    var e := XmlElement(a);
    assert e == "<variable" + s0 by {
      ConcatAssoc5("<variable", n, u, i, f, "/>");
    }
    assert "<variable" <= e && e[|"<variable"|..] == s0;
    // what follows each slot never starts with that slot's attribute
    NoAttributeAfter("initial_value", hasInterface, "interface", interface, "/>", 3);
    NoAttributeAfter("units", hasInterface, "interface", interface, "/>", 0);
    NoAttributeAfter("units", hasInitial, "initial_value", a.initialValue, s3, 0);
    NoAttributeAfter("name", hasInterface, "interface", interface, "/>", 0);
    NoAttributeAfter("name", hasInitial, "initial_value", a.initialValue, s3, 0);
    NoAttributeAfter("name", hasUnits, "units", unitsName, s2, 0);
    ReadOptionalAttribute(hasName, "name", a.name, s1);
    ReadOptionalAttribute(hasUnits, "units", unitsName, s2);
    ReadOptionalAttribute(hasInitial, "initial_value", a.initialValue, s3);
    assert NoAttributeAt("interface", "/>");
    ReadOptionalAttribute(hasInterface, "interface", interface, "/>");
    ParseOfSlots(e, s0, s1, s2, s3,
                 if hasName then Some(a.name) else None, a.units,
                 if hasInitial then Some(a.initialValue) else None,
                 if hasInterface then Some(interface) else None, a.interfaceType);
  }

  /** `ParseXmlElement` in terms of what each of its four reads gives. */
  lemma ParseOfSlots(e: string, s0: string, s1: string, s2: string, s3: string,
                     name: Option<string>, units: Option<string>, initial: Option<string>,
                     interface: Option<string>, t: InterfaceType)
    requires "<variable" <= e && e[|"<variable"|..] == s0
    requires ReadAttribute("name", s0) == (name, s1)
    requires ReadAttribute("units", s1) == (units, s2)
    requires ReadAttribute("initial_value", s2) == (initial, s3)
    requires ReadAttribute("interface", s3) == (interface, "/>")
    requires (if interface.Some? then InterfaceTypeFromString(interface.value) else Some(InterfaceNone)) == Some(t)
    ensures ParseXmlElement(e) == Some(Attributes(
                                        if name.Some? then name.value else "",
                                        units,
                                        if initial.Some? then initial.value else "",
                                        t))
  {
  }

  /** Appending the attribute `key`, with its opening spelt out as one literal. */
  lemma AppendAttribute(prefix: string, opening: string, key: string, value: string)
    requires opening == " " + key + "=\""
    ensures prefix + opening + value + "\"" == prefix + Attribute(key, value)
  {
  }

  lemma ConcatAssoc5(a: string, b: string, c: string, d: string, e: string, f: string)
    ensures a + b + c + d + e + f == a + (b + (c + (d + (e + f))))
  {
  }

  /**
   * Values are written without escaping, so the round trip needs values
   * free of `"`: a name holding a quote can forge a units attribute.
   */
  lemma UnescapedQuoteForgesAttribute()
    ensures XmlElement(Attributes("a\" units=\"u", None, "", InterfaceNone))
         == XmlElement(Attributes("a", Some("u"), "", InterfaceNone))
  {
  }

  // ------------------------------------------------------------------------
  // The variable

  /** `libcellml::Variable`, with the fields of its private implementation. */
  class Variable {
    /** The name inherited from `NamedEntity`. */
    var name: string
    /** `mEquivalentVariables`: weak links, in the order they were added. */
    var equivalents: seq<Variable>
    /** `mInitialValue`. */
    var initialValue: string
    /** `mInterfaceType`. */
    var interfaceType: InterfaceType
    /** The name of `mUnits`, or `None` when it is null. */
    var units: Option<string>

    /** No variable is linked twice from the same list. */
    ghost predicate Valid()
      reads this
    {
      Distinct(equivalents)
    }

    /** A new variable: no links, empty initial value, no interface, no units. */
    constructor ()
      ensures Valid()
      ensures name == "" && equivalents == []
      ensures initialValue == "" && interfaceType == InterfaceNone && units == None
    {
      name := "";
      equivalents := [];
      initialValue := "";
      interfaceType := InterfaceNone;
      units := None;
    }

    /**
     * The copy constructor: the name and the link list are copied; the
     * initial value, interface type and units take their defaults.
     */
    constructor Copy(rhs: Variable)
      requires rhs.Valid()
      ensures Valid()
      ensures name == rhs.name && equivalents == rhs.equivalents
      ensures initialValue == "" && interfaceType == InterfaceNone && units == None
    {
      name := rhs.name;
      equivalents := rhs.equivalents;
      initialValue := "";
      interfaceType := InterfaceNone;
      units := None;
    }

    /** `equivalentVariableCount`. */
    function EquivalentVariableCount(): nat
      reads this
    {
      |equivalents|
    }

    /**
     * `hasEquivalentVariable`: whether some entry, resolved now, is the live
     * candidate.
     */
    function HasEquivalentVariable(candidate: Variable, live: set<Variable>): (b: bool)
      reads this
      requires candidate in live
      ensures b <==> exists i :: 0 <= i < |equivalents| && Lock(equivalents[i], live) == Some(candidate)
      ensures b <==> candidate in equivalents
    {
      FindLink(equivalents, candidate, live) != |equivalents|
    }

    /**
     * `getEquivalentVariable`: out of range past the end of the list;
     * otherwise the entry resolved now, which is nothing once its target
     * has been destroyed.
     */
    function GetEquivalentVariable(index: nat, live: set<Variable>): (r: Result<Option<Variable>, Error>)
      reads this
      ensures r.Err? <==> index >= EquivalentVariableCount()
      ensures r.Ok? ==> (r.value.Some? <==> equivalents[index] in live)
      ensures r.Ok? && r.value.Some? ==> r.value.value == equivalents[index]
    {
      if index < |equivalents| then Ok(Lock(equivalents[index], live)) else Err(OutOfRange)
    }

    /** The fields the text form shows. */
    function AttributesOf(): Attributes
      reads this
    {
      Attributes(name, units, initialValue, interfaceType)
    }

    /**
     * `setEquivalentTo`: links `v` unless an entry already resolves to it;
     * a new link goes at the end and earlier entries stay as they were.
     */
    method SetEquivalentTo(v: Variable, live: set<Variable>)
      requires v in live
      requires Valid()
      modifies this`equivalents
      ensures Valid()
      ensures equivalents == AppendIfAbsent(old(equivalents), v)
    {
      if !HasEquivalentVariable(v, live) {
        equivalents := equivalents + [v];
      }
    }

    /**
     * `addEquivalence`: links each of the two variables from the other.
     * Afterwards each has the other as an equivalent variable; when both
     * links were already there nothing changes; symmetry of a network that
     * holds both variables is kept.
     */
    static method AddEquivalence(a: Variable, b: Variable, live: set<Variable>, ghost network: set<Variable>)
      requires a in live && b in live
      requires a.Valid() && b.Valid()
      modifies a`equivalents, b`equivalents
      ensures a.Valid() && b.Valid()
      ensures a.HasEquivalentVariable(b, live) && b.HasEquivalentVariable(a, live)
      ensures a != b ==> a.equivalents == AppendIfAbsent(old(a.equivalents), b)
      ensures a != b ==> b.equivalents == AppendIfAbsent(old(b.equivalents), a)
      ensures a == b ==> a.equivalents == AppendIfAbsent(old(a.equivalents), a)
      ensures old(b in a.equivalents && a in b.equivalents) ==>
                a.equivalents == old(a.equivalents) && b.equivalents == old(b.equivalents)
      ensures a in network && b in network && old(Symmetric(network)) ==> Symmetric(network)
    {
      a.SetEquivalentTo(b, live);
      b.SetEquivalentTo(a, live);
    }

    /** `setUnits`: `None` stands for a null `UnitsPtr`. */
    method SetUnits(u: Option<string>)
      modifies this`units
      ensures old(Valid()) ==> Valid()
      ensures units == u
    {
      units := u;
    }

    /** `setInitialValue(const std::string &)`: the text is kept verbatim. */
    method SetInitialValue(initial: string)
      modifies this`initialValue
      ensures old(Valid()) ==> Valid()
      ensures initialValue == initial
    {
      initialValue := initial;
    }

    /** `setInitialValue(const VariablePtr &)`: the initial value becomes that variable's name. */
    method SetInitialValueToVariable(v: Variable)
      modifies this`initialValue
      ensures old(Valid()) ==> Valid()
      ensures initialValue == old(v.name)
    {
      initialValue := v.name;
    }

    /** `setInterfaceType`. */
    method SetInterfaceType(t: InterfaceType)
      modifies this`interfaceType
      ensures old(Valid()) ==> Valid()
      ensures interfaceType == t
    {
      interfaceType := t;
    }

    /**
     * `doSerialisation`: the XML element for `FormatXml`, built one
     * attribute at a time, and the empty string for any other format.
     */
    method DoSerialisation(format: Format) returns (repr: string)
      ensures format == FormatXml ==> repr == XmlElement(AttributesOf())
      ensures format != FormatXml ==> repr == ""
    {
      repr := "";
      if format == FormatXml {
        repr := repr + "<variable";
        if |name| > 0 {
          AppendAttribute(repr, " name=\"", "name", name);
          repr := repr + " name=\"" + name + "\"";
        }
        assert repr == "<variable" + OptionalAttribute(|name| > 0, "name", name);
        if units.Some? {
          AppendAttribute(repr, " units=\"", "units", units.value);
          repr := repr + " units=\"" + units.value + "\"";
        }
        ghost var unitsName := if units.Some? then units.value else "";
        assert repr == "<variable" + OptionalAttribute(|name| > 0, "name", name)
                      + OptionalAttribute(units.Some?, "units", unitsName);
        if |initialValue| > 0 {
          AppendAttribute(repr, " initial_value=\"", "initial_value", initialValue);
          repr := repr + " initial_value=\"" + initialValue + "\"";
        }
        assert repr == "<variable" + OptionalAttribute(|name| > 0, "name", name)
                      + OptionalAttribute(units.Some?, "units", unitsName)
                      + OptionalAttribute(|initialValue| > 0, "initial_value", initialValue);
        if interfaceType != InterfaceNone {
          AppendAttribute(repr, " interface=\"", "interface", InterfaceTypeToString(interfaceType));
          repr := repr + " interface=\"" + InterfaceTypeToString(interfaceType) + "\"";
        }
        repr := repr + "/>";
      }
    }
  }

  /**
   * Two variables declared equivalent twice: one link each, visible from
   * both sides; once the second is destroyed the first still counts its
   * link, which resolves to nothing, and reading one past the end fails.
   */
  method TwoVariableScenario()
  {
    var a := new Variable();
    var b := new Variable();
    var live := {a, b};
    Variable.AddEquivalence(a, b, live, {a, b});
    Variable.AddEquivalence(a, b, live, {a, b});
    assert a.EquivalentVariableCount() == 1 && b.EquivalentVariableCount() == 1;
    assert a.HasEquivalentVariable(b, live) && b.HasEquivalentVariable(a, live);
    assert Symmetric({a, b});
    var afterB := live - {b};
    assert a.EquivalentVariableCount() == 1;
    assert a.GetEquivalentVariable(0, afterB) == Ok(None);
    assert a.GetEquivalentVariable(1, afterB) == Err(OutOfRange);
  }
}
