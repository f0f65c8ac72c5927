/** Object identifiers of the agent: notifications, tables and the cells that traps report. */
module Oids {
  import opened Wrappers

  type Oid = seq<nat>

  /** Size of the buffer in which `make_oid` has an OID text parsed. */
  const MAX_OID_LEN := 128

  const YADRO: Oid := [1, 3, 6, 1, 4, 1, 49769]

  function Codes(name: string): (r: Oid)
    ensures |r| == |name|
  {
    seq(|name|, i requires 0 <= i < |name| => name[i] as int)
  }

  /** A variable-length string index (section 7.7 of RFC 2578): its length, then its characters. */
  function NameIndex(name: string): Oid {
    [|name|] + Codes(name)
  }

  /** `make_oid` on a text `<prefix>."<name>"`: the empty OID when the result does not fit the buffer. */
  function MakeOid(prefix: Oid, name: string): Oid {
    var oid := prefix + NameIndex(name);
    if |oid| <= MAX_OID_LEN then oid else []
  }

  /** `folder.rfind('/')` */
  function LastSlash(folder: string): (r: Option<nat>)
    ensures r.Some? ==> r.value < |folder|
  {
    if folder == "" then None
    else if folder[|folder| - 1] == '/' then Some(|folder| - 1)
    else LastSlash(folder[..|folder| - 1])
  }

  lemma {:induction false} LastSlashIs(folder: string, n: nat)
    requires n < |folder| && folder[n] == '/' && '/' !in folder[n + 1..]
    ensures LastSlash(folder) == Some(n)
    decreases |folder|
  {
    if n < |folder| - 1 {
      assert folder[|folder| - 1] == folder[n + 1..][|folder| - n - 2];
      assert folder[..|folder| - 1][n + 1..] == folder[n + 1..][..|folder| - n - 2];
      LastSlashIs(folder[..|folder| - 1], n);
    }
  }

  /** The switch of the `Sensor` constructor on the first letter of the last folder component. */
  function SensorNotifyOid(folder: string): Oid {
    match LastSlash(folder)
    case None => []
    case Some(n) =>
      if n + 1 == |folder| then []
      else match folder[n + 1]
        case 't' => YADRO + [0, 2]
        case 'v' => YADRO + [0, 3]
        case 'f' => YADRO + [0, 4]
        case 'c' => YADRO + [0, 5]
        case 'p' => YADRO + [0, 6]
        case _ => []
  }

  /** Ten to the power that the constructor chooses by the same letter: 0 for tachometers, else 3. */
  function SensorScale(folder: string): real {
    match LastSlash(folder)
    case None => 1000.0
    case Some(n) => if n + 1 < |folder| && folder[n + 1] == 'f' then 1.0 else 1000.0
  }

  /** For every folder: what follows its last slash decides, by its first letter. */
  lemma FolderDecides(head: string, last: string)
    requires '/' !in last
    ensures SensorNotifyOid(last) == [] && SensorScale(last) == 1000.0
    ensures SensorNotifyOid(head + "/" + last) ==
            if last == "" then []
            else if last[0] == 't' then [1, 3, 6, 1, 4, 1, 49769, 0, 2]
            else if last[0] == 'v' then [1, 3, 6, 1, 4, 1, 49769, 0, 3]
            else if last[0] == 'f' then [1, 3, 6, 1, 4, 1, 49769, 0, 4]
            else if last[0] == 'c' then [1, 3, 6, 1, 4, 1, 49769, 0, 5]
            else if last[0] == 'p' then [1, 3, 6, 1, 4, 1, 49769, 0, 6]
            else []
    ensures SensorScale(head + "/" + last) == if last != "" && last[0] == 'f' then 1.0 else 1000.0
  {
    var folder := head + "/" + last;
    assert folder[|head|] == '/' && folder[|head| + 1..] == last;
    LastSlashIs(folder, |head|);
    NoSlash(last);
  }

  lemma {:induction false} NoSlash(folder: string)
    requires '/' !in folder
    ensures LastSlash(folder).None?
  {
    if folder != "" {
      NoSlash(folder[..|folder| - 1]);
    }
  }

  /** The cell that a sensor's traps report; it is built from the last arc of the notification. */
  function SensorStateOid(folder: string, name: string): Oid {
    var notify := SensorNotifyOid(folder);
    if notify == [] then [] else MakeOid(YADRO + [1, notify[|notify| - 1], 1, 7], name)
  }

  const INVENTORY_NOTIFY: Oid := YADRO + [0, 7]

  const COLUMN_PRESENT: nat := 9
  const COLUMN_FUNCTIONAL: nat := 10

  function InventoryOid(column: nat, name: string): Oid {
    MakeOid(YADRO + [4, 1, column], name)
  }

  lemma NameIndexInjective(a: string, b: string)
    requires NameIndex(a) == NameIndex(b)
    ensures a == b
  {
    assert NameIndex(a)[0] == NameIndex(b)[0];
    forall i | 0 <= i < |a|
      ensures a[i] == b[i]
    {
      assert NameIndex(a)[i + 1] == NameIndex(b)[i + 1];
    }
  }

  /** Two OIDs made from prefixes of one length are equal only if prefix and name are. */
  lemma MakeOidInjective(p: Oid, a: string, q: Oid, b: string)
    requires |p| == |q| && MakeOid(p, a) == MakeOid(q, b) != []
    ensures p == q && a == b
  {
    var oid := MakeOid(p, a);
    assert oid[..|p|] == p && oid[|p|..] == NameIndex(a);
    assert oid[..|q|] == q && oid[|q|..] == NameIndex(b);
    NameIndexInjective(a, b);
  }
}
