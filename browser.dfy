/**
 * The part of the browser the site's scripts see, reduced to values: a
 * possibly-missing value (JavaScript's `null`), the page location, and an
 * element as a tag name with its attributes.
 */
module Browser {

  datatype Option<T> = None | Some(value: T)

  /** `window.location`: protocol (with its trailing colon), hostname, pathname. */
  datatype Location = Location(protocol: string, hostname: string, pathname: string)

  /** A DOM element: its lower-case tag name and its attributes. */
  datatype Element = Element(tag: string, attrs: map<string, string>)

  /** `element.getAttribute(name)`: the value, or null when the attribute is absent. */
  function GetAttribute(e: Element, name: string): (r: Option<string>)
    ensures r.Some? <==> name in e.attrs
    ensures r.Some? ==> r.value == e.attrs[name]
  {
    if name in e.attrs then Some(e.attrs[name]) else None
  }

  /** `element.setAttribute(name, value)` */
  function SetAttribute(e: Element, name: string, value: string): (r: Element)
    ensures r.tag == e.tag
    ensures r.attrs.Keys == e.attrs.Keys + {name}
    ensures r.attrs[name] == value
    ensures forall k :: k in e.attrs && k != name ==> r.attrs[k] == e.attrs[k]
  {
    e.(attrs := e.attrs[name := value])
  }

  /** `localStorage.getItem(key)` */
  function GetItem(storage: map<string, string>, key: string): Option<string> {
    if key in storage then Some(storage[key]) else None
  }

  /** JavaScript truthiness of a string that may be null: present and non-empty. */
  predicate Truthy(v: Option<string>) {
    v.Some? && v.value != ""
  }

  /** A character allowed in a URL scheme after its first letter. */
  predicate IsSchemeChar(c: char) {
    ('a' <= c <= 'z') || ('A' <= c <= 'Z') || ('0' <= c <= '9') || c == '+' || c == '-' || c == '.'
  }

  /**
   * A value `location.protocol` can take: a URL scheme (a letter, then letters,
   * digits, `+`, `-` or `.`) followed by one colon.
   */
  predicate ValidProtocol(p: string) {
    |p| >= 2 && p[|p| - 1] == ':'
    && (('a' <= p[0] <= 'z') || ('A' <= p[0] <= 'Z'))
    && forall i :: 0 <= i < |p| - 1 ==> IsSchemeChar(p[i])
  }
}
