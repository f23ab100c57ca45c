/** The namespaces of section 8 ("Namespaces") of the WHATWG Infra Standard
    and their URIs. */
module Namespace {
  import opened Wrappers

  datatype Namespace = Html | MathML | Svg | XLink | Xml | Xmlns {

    /** The namespace's URI; all six lie under the W3C's web address. */
    function AsStr(): (uri: string)
      ensures |uri| > 18 && uri[..18] == "http://www.w3.org/"
    {
      match this
      case Html => "http://www.w3.org/1999/xhtml"
      case MathML => "http://www.w3.org/1998/Math/MathML"
      case Svg => "http://www.w3.org/2000/svg"
      case XLink => "http://www.w3.org/1999/xlink"
      case Xml => "http://www.w3.org/XML/1998/namespace"
      case Xmlns => "http://www.w3.org/2000/xmlns/"
    }
  }

  /** The namespace whose URI is `s`, if any. */
  function FromStr(s: string): (r: Option<Namespace>)
    ensures r.Some? ==> r.value.AsStr() == s
  {
    if s == "http://www.w3.org/1999/xhtml" then Some(Html)
    else if s == "http://www.w3.org/1998/Math/MathML" then Some(MathML)
    else if s == "http://www.w3.org/2000/svg" then Some(Svg)
    else if s == "http://www.w3.org/1999/xlink" then Some(XLink)
    else if s == "http://www.w3.org/XML/1998/namespace" then Some(Xml)
    else if s == "http://www.w3.org/2000/xmlns/" then Some(Xmlns)
    else None
  }

  /** Parsing a namespace's URI gives the namespace back. */
  lemma FromStrAsStr(ns: Namespace)
    ensures FromStr(ns.AsStr()) == Some(ns)
  {
  }

  /** Distinct namespaces have distinct URIs. */
  lemma AsStrInjective(a: Namespace, b: Namespace)
    ensures a.AsStr() == b.AsStr() ==> a == b
  {
  }

  /** `FromStr` succeeds exactly on the six URIs, and what it returns is the
      namespace of that URI. */
  lemma FromStrExact(s: string)
    ensures forall ns :: FromStr(s) == Some(ns) ==> ns.AsStr() == s
    ensures FromStr(s).None? <==> forall ns: Namespace :: ns.AsStr() != s
  {
    if FromStr(s).None? {
      forall ns: Namespace ensures ns.AsStr() != s {
        FromStrAsStr(ns);
      }
    }
  }
}
