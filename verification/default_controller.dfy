/**
 * `DefaultController::indexAction` (lines 26-35 of
 * mautic/src/Mautic/CoreBundle/Controller/DefaultController.php): the entry
 * page decides between the AJAX action runner, the AJAX content loader and
 * the full page. The three handlers live elsewhere; only the choice is
 * modelled.
 */
module DefaultController {
  import opened Wrappers

  /** The parameter bags of a Symfony request: route attributes, query string, POST body. */
  datatype Bag = Attributes | Query | Post

  /**
   * The parts of a request the dispatch reads: whether it is an
   * `XMLHttpRequest`, its three bags, and the order in which the
   * framework's `Request::get` consults them (which the controller does not
   * choose; it differs between framework versions).
   */
  datatype Request = Request(isXhr: bool, attributes: map<string, string>, query: map<string, string>,
                             post: map<string, string>, lookup: seq<Bag>)

  /** Which handler answers. */
  datatype Response = ExecuteAjaxActions | AjaxAction | RenderIndex

  function BagOf(r: Request, b: Bag): map<string, string>
  {
    match b
    case Attributes => r.attributes
    case Query => r.query
    case Post => r.post
  }

  /** The same request with `key` set to `v` in bag `b`. */
  function SetParam(r: Request, b: Bag, key: string, v: string): Request
  {
    match b
    case Attributes => r.(attributes := r.attributes[key := v])
    case Query => r.(query := r.query[key := v])
    case Post => r.(post := r.post[key := v])
  }

  /** The value of `key` in the first of `bags` that holds it. */
  function FirstIn(r: Request, bags: seq<Bag>, key: string): Option<string>
    decreases |bags|
  {
    if bags == [] then None
    else if key in BagOf(r, bags[0]) then Some(BagOf(r, bags[0])[key])
    else FirstIn(r, bags[1..], key)
  }

  /**
   * A lookup finds a value exactly when some consulted bag holds the key,
   * and then it is the value in the first such bag.
   */
  lemma {:induction false} FirstInSpec(r: Request, bags: seq<Bag>, key: string)
    ensures FirstIn(r, bags, key).Some? <==> exists i :: 0 <= i < |bags| && key in BagOf(r, bags[i])
    ensures FirstIn(r, bags, key).Some? ==>
      exists i :: 0 <= i < |bags| && key in BagOf(r, bags[i]) && FirstIn(r, bags, key).value == BagOf(r, bags[i])[key]
                  && forall j :: 0 <= j < i ==> key !in BagOf(r, bags[j])
    decreases |bags|
  {
    if bags != [] {
      if key in BagOf(r, bags[0]) {
        assert 0 < |bags| && key in BagOf(r, bags[0]);
      } else {
        var tail := bags[1..];
        FirstInSpec(r, tail, key);
        if i :| 0 <= i < |bags| && key in BagOf(r, bags[i]) {
          assert tail[i - 1] == bags[i];
        }
        if FirstIn(r, tail, key).Some? {
          var i :| 0 <= i < |tail| && key in BagOf(r, tail[i]) && FirstIn(r, tail, key).value == BagOf(r, tail[i])[key]
                   && forall j :: 0 <= j < i ==> key !in BagOf(r, tail[j]);
          assert bags[i + 1] == tail[i];
          forall j | 0 <= j < i + 1 ensures key !in BagOf(r, bags[j]) {
            if j > 0 { assert bags[j] == tail[j - 1]; }
          }
        }
      }
    }
  }

  /** `Request::get($key)`: the value in the first bag, in the framework's lookup order, that holds `key`. */
  function Param(r: Request, key: string): (v: Option<string>)
  {
    FirstIn(r, r.lookup, key)
  }

  /** PHP's truth value of a request parameter, `false` when absent: `""` and `"0"` are false. */
  predicate Truthy(v: Option<string>)
  {
    v.Some? && v.value != "" && v.value != "0"
  }

  /**
   * Lines 28-34: an AJAX request that posts `ajaxAction` runs the action; any
   * other AJAX request loads content unless `ignoreAjax` is true; everything
   * else renders the page.
   */
  function IndexAction(r: Request): (out: Response)
    ensures out == ExecuteAjaxActions <==> r.isXhr && "ajaxAction" in r.post
    ensures out == AjaxAction <==> r.isXhr && "ajaxAction" !in r.post && !Truthy(Param(r, "ignoreAjax"))
    ensures out == RenderIndex <==> !r.isXhr || ("ajaxAction" !in r.post && Truthy(Param(r, "ignoreAjax")))
  {
    if r.isXhr && "ajaxAction" in r.post then ExecuteAjaxActions
    else if r.isXhr && !Truthy(Param(r, "ignoreAjax")) then AjaxAction
    else RenderIndex
  }

  /** A request that is not AJAX always gets the page, whatever its parameters. */
  lemma PlainRequestRenders(r: Request, r': Request)
    requires !r.isXhr && !r'.isXhr
    ensures IndexAction(r) == IndexAction(r') == RenderIndex
  {
  }

  /** `ignoreAjax` cannot stop a posted AJAX action: only whether one is posted matters. */
  lemma IgnoreAjaxCannotSuppressActions(r: Request, v: string)
    requires r.isXhr && "ajaxAction" in r.post
    ensures IndexAction(r.(query := r.query["ignoreAjax" := v])) == ExecuteAjaxActions
    ensures IndexAction(r.(attributes := r.attributes["ignoreAjax" := v])) == ExecuteAjaxActions
  {
  }

  /** No bag is consulted twice. */
  ghost predicate Unrepeated(bags: seq<Bag>)
  {
    forall i, j :: 0 <= i < j < |bags| ==> bags[i] != bags[j]
  }

  /**
   * Whatever the lookup order, a bag consulted earlier that holds the key
   * hides the same key in a bag consulted later: setting it there changes
   * nothing that `Request::get` returns.
   */
  lemma {:induction false} EarlierBagShadows(r: Request, bags: seq<Bag>, key: string, i: nat, j: nat, v: string)
    requires Unrepeated(bags)
    requires i < j < |bags| && key in BagOf(r, bags[i])
    ensures FirstIn(SetParam(r, bags[j], key, v), bags, key) == FirstIn(r, bags, key)
    decreases i
  {
    var r' := SetParam(r, bags[j], key, v);
    assert forall b :: b != bags[j] ==> BagOf(r', b) == BagOf(r, b);
    if i > 0 {
      assert bags[0] != bags[j];
      if key !in BagOf(r, bags[0]) {
        assert Unrepeated(bags[1..]) by {
          forall a, b | 0 <= a < b < |bags[1..]| ensures bags[1..][a] != bags[1..][b] {
            assert bags[1..][a] == bags[a + 1] && bags[1..][b] == bags[b + 1];
          }
        }
        assert bags[1..][j - 1] == bags[j] && bags[1..][i - 1] == bags[i];
        EarlierBagShadows(r, bags[1..], key, i - 1, j - 1, v);
      }
    } else {
      assert bags[0] == bags[i] != bags[j];
    }
  }

  /**
   * Consequently an AJAX request without a posted action whose `ignoreAjax`
   * is false in an earlier-consulted bag loads content, even when a later
   * bag says true.
   */
  lemma ShadowedIgnoreAjaxStillLoads(r: Request, i: nat, j: nat)
    requires Unrepeated(r.lookup)
    requires r.isXhr && "ajaxAction" !in r.post
    requires i < j < |r.lookup|
    requires "ignoreAjax" in BagOf(r, r.lookup[i]) && BagOf(r, r.lookup[i])["ignoreAjax"] == "0"
    requires forall k :: 0 <= k < i ==> "ignoreAjax" !in BagOf(r, r.lookup[k])
    ensures IndexAction(r) == AjaxAction
    ensures IndexAction(SetParam(r, r.lookup[j], "ignoreAjax", "1")) == AjaxAction
  {
    EarlierBagShadows(r, r.lookup, "ignoreAjax", i, j, "1");
  }

  /** The choice depends on three facts only: AJAX or not, `ajaxAction` posted or not, `ignoreAjax` true or not. */
  lemma DispatchDependsOnThreeFacts(r: Request, r': Request)
    requires r.isXhr == r'.isXhr
    requires ("ajaxAction" in r.post) == ("ajaxAction" in r'.post)
    requires Truthy(Param(r, "ignoreAjax")) == Truthy(Param(r', "ignoreAjax"))
    ensures IndexAction(r) == IndexAction(r')
  {
  }
}
