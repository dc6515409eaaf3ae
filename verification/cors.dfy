/**
 The `set_cors_headers` decorator: it wraps a view so that the response the
 view returns leaves with `Access-Control-Allow-Origin` and
 `Access-Control-Allow-Methods` set. A response is modelled by its header map;
 a header value is `None` where Python's `None` was assigned.
 */
module Cors {
  import opened Wrappers
  import opened PyStrings

  const AllowOrigin: string := "Access-Control-Allow-Origin"
  const AllowMethods: string := "Access-Control-Allow-Methods"

  type Headers = map<string, Option<string>>

  /** The `methods` argument: a single string or a list of strings. */
  datatype Methods = Str(name: string) | List(names: seq<string>)

  /** What `set_cors_headers(origin, methods)` captures for its `inner` wrappers. */
  datatype CorsConfig = CorsConfig(origin: Option<string>, methods: seq<string>)

  /** The default arguments: no origin and the method `GET`. */
  const DefaultOrigin: Option<string> := None
  const DefaultMethods: Methods := Str("GET")

  /** `set_cors_headers(origin, methods)`: a string `methods` becomes a one-element list, a list is kept. */
  function SetCorsHeaders(origin: Option<string>, methods: Methods): (config: CorsConfig)
    ensures config.origin == origin
    ensures methods.Str? ==> config.methods == [methods.name]
    ensures methods.List? ==> config.methods == methods.names
  {
    CorsConfig(origin, if methods.Str? then [methods.name] else methods.names)
  }

  /**
   The value written to `Access-Control-Allow-Methods`: the methods in order,
   each but the last followed by a bare ','; no methods give the empty string.
   */
  function MethodsValue(config: CorsConfig): (value: string)
    ensures |config.methods| == 0 ==> value == ""
    ensures 0 < |config.methods| ==> IsJoinLayout(",", config.methods, value)
  {
    Join(",", config.methods)
  }

  /**
   `inner(*args)`: call the view once with the arguments, then make two
   assignments on the response it returned. Both headers are present afterwards
   with the configured values, whatever they held before, and every other
   header is kept as it was.
   */
  function Inner<A>(config: CorsConfig, view: A -> Headers, args: A): (r: Headers)
    ensures r.Keys == view(args).Keys + {AllowOrigin, AllowMethods}
    ensures r[AllowOrigin] == config.origin
    ensures r[AllowMethods] == Some(MethodsValue(config))
    ensures forall h :: h in view(args) && h != AllowOrigin && h != AllowMethods ==> r[h] == view(args)[h]
  {
    var response := view(args);
    response[AllowOrigin := config.origin][AllowMethods := Some(MethodsValue(config))]
  }

  /** A string `methods` appears verbatim as the methods header; the defaults give `None` and `GET`. */
  lemma StringMethodsVerbatim(origin: Option<string>, name: string)
    ensures MethodsValue(SetCorsHeaders(origin, Str(name))) == name
    ensures var d := SetCorsHeaders(DefaultOrigin, DefaultMethods);
            d.origin == None && MethodsValue(d) == "GET"
  {}

  /**
   The methods header lists the methods in order, separated by a bare ',':
   splitting it on ',' gives the list back when no method name holds a comma.
   */
  lemma MethodsValueSplits(origin: Option<string>, names: seq<string>)
    requires 0 < |names|
    requires forall i :: 0 <= i < |names| ==> ',' !in names[i]
    ensures Split(MethodsValue(SetCorsHeaders(origin, List(names))), ',') == names
  {
    SplitJoin(names, ',');
  }

  /**
   Of two stacked decorators the outer one runs last, so its values are the
   ones sent; with the same arguments twice, decorating again changes nothing.
   */
  lemma OuterDecoratorWins<A>(outerConfig: CorsConfig, innerConfig: CorsConfig, view: A -> Headers, args: A)
    ensures Inner(outerConfig, a => Inner(innerConfig, view, a), args) == Inner(outerConfig, view, args)
  {}
}
