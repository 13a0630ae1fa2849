/** The three-level request tree: the root, one node per request, and one
    leaf per requested change, with the fields the integration loop attaches
    to a leaf. Also the two single-node searches the loop runs over the tree
    (by name, and by local changelist id) and the search for placeholders. */
module RequestTree {
  import opened Exceptions
  import opened Records

  /** The name (and requested change) of a leaf: a change id as text, or the
      integer 0 a request with no change yet gets. Python never finds the
      integer 0 by a text search, and never finds a text "0" by a search for 0. */
  datatype Label = Named(text: string) | Zero

  /** The entry the run list holds for a leaf: "0" for the placeholder. */
  function LabelText(l: Label): string {
    match l
    case Named(t) => t
    case Zero => "0"
  }

  /** One `{key: value}` record of a leaf's errors, warnings or suggestions. */
  datatype Entry = Entry(key: string, value: string)

  /** A leaf. A field is None while the integration loop has not set it on
      the node (reading it then is an AttributeError). `name` is also the
      node's requested change. */
  datatype ChangeNode = ChangeNode(
    name: Label,
    errors: Option<seq<Entry>>,
    warnings: Option<seq<Entry>>,
    sugs: Option<seq<Entry>>,
    crossComponent: bool,
    change: Option<string>,
    desc: Option<Describe>)

  /** A leaf as the tree is built: only its name. */
  function Fresh(name: Label): ChangeNode {
    ChangeNode(name, None, None, None, false, None, None)
  }

  /** A request node: its id is both its name and its `req_id`. */
  datatype Request = Request(id: string, children: seq<ChangeNode>)

  /** The root's children in order; the root itself is named "root". */
  type Tree = seq<Request>

  const RootName: string := "root"

  /** A node of the tree: the root, request `r`, or leaf `c` of request `r`. */
  datatype Pos = AtRoot | AtRequest(r: nat) | AtChange(r: nat, c: nat)

  predicate IsLeaf(t: Tree, r: nat, c: nat) {
    r < |t| && c < |t[r].children|
  }

  /** The tree with leaf (r, c) replaced and every other node kept. */
  function SetLeaf(t: Tree, r: nat, c: nat, n: ChangeNode): (u: Tree)
    requires IsLeaf(t, r, c)
    ensures |u| == |t|
    ensures forall i :: 0 <= i < |t| ==> u[i].id == t[i].id && |u[i].children| == |t[i].children|
    ensures u[r].children[c] == n
    ensures forall i: nat, j: nat :: IsLeaf(t, i, j) && (i, j) != (r, c) ==> u[i].children[j] == t[i].children[j]
  {
    t[r := t[r].(children := t[r].children[c := n])]
  }

  /** Same requests, same leaves, same names: only leaf fields may differ. */
  predicate SameShape(t: Tree, u: Tree) {
    && |t| == |u|
    && (forall r :: 0 <= r < |t| ==> t[r].id == u[r].id && |t[r].children| == |u[r].children|)
    && (forall r, c :: 0 <= r < |t| && 0 <= c < |t[r].children| ==> u[r].children[c].name == t[r].children[c].name)
  }

  lemma SameShapeTransitive(t: Tree, u: Tree, v: Tree)
    requires SameShape(t, u) && SameShape(u, v)
    ensures SameShape(t, v)
  {}

  /** The node at `p` is named `v` (anytree's `name == v`). */
  predicate NamedAt(t: Tree, p: Pos, v: string) {
    match p
    case AtRoot => v == RootName
    case AtRequest(r) => r < |t| && t[r].id == v
    case AtChange(r, c) => IsLeaf(t, r, c) && t[r].children[c].name == Named(v)
  }

  /** The leaf at `p` carries local changelist id `v` (anytree's `change == v`);
      the root and the request nodes never carry one. */
  predicate LinkedAt(t: Tree, p: Pos, v: string) {
    p.AtChange? && IsLeaf(t, p.r, p.c) && t[p.r].children[p.c].change == Some(v)
  }

  predicate Distinct<T(==)>(s: seq<T>) {
    forall i, j :: 0 <= i < j < |s| ==> s[i] != s[j]
  }

  lemma DistinctConcat<T>(a: seq<T>, b: seq<T>)
    requires Distinct(a) && Distinct(b)
    requires forall x :: x in a ==> x !in b
    ensures Distinct(a + b)
  {
    var s := a + b;
    forall i, j | 0 <= i < j < |s|
      ensures s[i] != s[j]
    {
      if i < |a| && j >= |a| {
        assert s[i] in a && s[j] == b[j - |a|];
      }
    }
  }

  /** Leaves c, c+1, ... of request r whose name is `v`. */
  function LeavesNamed(t: Tree, r: nat, c: nat, v: string): (ps: seq<Pos>)
    requires r < |t|
    ensures forall p :: p in ps <==> (NamedAt(t, p, v) && p.AtChange? && p.r == r && p.c >= c)
    ensures Distinct(ps)
    decreases |t[r].children| - c
  {
    if c >= |t[r].children| then []
    else
      var rest := LeavesNamed(t, r, c + 1, v);
      if t[r].children[c].name == Named(v) then
        DistinctConcat([AtChange(r, c)], rest);
        [AtChange(r, c)] + rest
      else rest
  }

  /** Request nodes r, r+1, ... and their leaves named `v`, in pre-order. */
  function RequestsNamed(t: Tree, r: nat, v: string): (ps: seq<Pos>)
    ensures forall p :: p in ps <==> (NamedAt(t, p, v) && !p.AtRoot? && p.r >= r)
    ensures Distinct(ps)
    decreases |t| - r
  {
    if r >= |t| then []
    else
      var head: seq<Pos> := if t[r].id == v then [AtRequest(r)] else [];
      var leaves := LeavesNamed(t, r, 0, v);
      DistinctConcat(head, leaves);
      var here := head + leaves;
      var rest := RequestsNamed(t, r + 1, v);
      assert forall p :: p in here ==> !p.AtRoot? && p.r == r;
      DistinctConcat(here, rest);
      here + rest
  }

  /** Every node named `v`, in pre-order (anytree's findall by name). */
  function NamedNodes(t: Tree, v: string): (ps: seq<Pos>)
    ensures forall p :: p in ps <==> NamedAt(t, p, v)
    ensures Distinct(ps)
  {
    var head: seq<Pos> := if v == RootName then [AtRoot] else [];
    DistinctConcat(head, RequestsNamed(t, 0, v));
    head + RequestsNamed(t, 0, v)
  }

  /** Leaves c, c+1, ... of request r carrying local changelist id `v`. */
  function LeavesLinked(t: Tree, r: nat, c: nat, v: string): (ps: seq<Pos>)
    requires r < |t|
    ensures forall p :: p in ps <==> (LinkedAt(t, p, v) && p.r == r && p.c >= c)
    ensures Distinct(ps)
    decreases |t[r].children| - c
  {
    if c >= |t[r].children| then []
    else
      var rest := LeavesLinked(t, r, c + 1, v);
      if t[r].children[c].change == Some(v) then
        DistinctConcat([AtChange(r, c)], rest);
        [AtChange(r, c)] + rest
      else rest
  }

  function RequestsLinked(t: Tree, r: nat, v: string): (ps: seq<Pos>)
    ensures forall p :: p in ps <==> (LinkedAt(t, p, v) && p.r >= r)
    ensures Distinct(ps)
    decreases |t| - r
  {
    if r >= |t| then []
    else
      var here := LeavesLinked(t, r, 0, v);
      var rest := RequestsLinked(t, r + 1, v);
      DistinctConcat(here, rest);
      here + rest
  }

  /** Every node carrying local changelist id `v`, in pre-order. */
  function LinkedNodes(t: Tree, v: string): (ps: seq<Pos>)
    ensures forall p :: p in ps <==> LinkedAt(t, p, v)
    ensures Distinct(ps)
  {
    RequestsLinked(t, 0, v)
  }

  /** anytree's single-node `find`: nothing, the one match, or CountError
      when more than one node matched. */
  function Single(ps: seq<Pos>): (r: Outcome<Option<Pos>>)
    requires Distinct(ps)
    ensures r == Done(None) <==> |ps| == 0
    ensures r.Done? && r.value.Some? <==> |ps| == 1
    ensures r.Done? && r.value.Some? ==> ps == [r.value.value]
    ensures r.Raised? ==> r.error == CountError && exists i, j :: 0 <= i < j < |ps| && ps[i] != ps[j]
  {
    if |ps| == 0 then Done(None)
    else if |ps| == 1 then Done(Some(ps[0]))
    else
      assert ps[0] != ps[1];
      Raised(CountError)
  }

  /** The leaves named by the integer 0 (anytree's findall by value 0). */
  function Placeholders(t: Tree): set<Pos> {
    set r, c | 0 <= r < |t| && 0 <= c < |t[r].children| && t[r].children[c].name == Zero :: AtChange(r, c)
  }

  /** The number of leaves of the tree. */
  function LeafCount(t: Tree): nat {
    if |t| == 0 then 0 else LeafCount(t[..|t| - 1]) + |t[|t| - 1].children|
  }

  /** The names of all leaves, request by request. */
  function LeafLabels(t: Tree): seq<Label> {
    if |t| == 0 then [] else LeafLabels(t[..|t| - 1]) + Names(t[|t| - 1].children)
  }

  function Names(ch: seq<ChangeNode>): (ns: seq<Label>)
    ensures |ns| == |ch|
    ensures forall i :: 0 <= i < |ch| ==> ns[i] == ch[i].name
  {
    if |ch| == 0 then [] else Names(ch[..|ch| - 1]) + [ch[|ch| - 1].name]
  }
}
