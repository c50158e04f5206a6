/**
  The clusterd `config` table: rows with an autoincremented id, a key and a value, and the
  database transactions that clusterd runs on it.  One method call is one transaction.  A
  transaction may also fail as a whole; it then changes nothing.
 */
module ConfigTable {
  /** The HTTP statuses that errors carry: 404, 409, 423, and everything else. */
  datatype Status = NotFound | Conflict | Locked | Internal

  datatype Result<+T> = Ok(value: T) | Err(status: Status)

  function Discard<T>(r: Result<T>): Result<()> {
    match r
    case Ok(_) => Ok(())
    case Err(status) => Err(status)
  }

  datatype ConfigItem = ConfigItem(id: nat, key: string, value: string)

  ghost predicate UniqueKeys(rows: seq<ConfigItem>) {
    forall i, j :: 0 <= i < j < |rows| ==> rows[i].key != rows[j].key && rows[i].id != rows[j].id
  }

  /** SELECT ... WHERE key = ? */
  function Matching(rows: seq<ConfigItem>, key: string): (found: seq<ConfigItem>)
    ensures forall r :: r in found <==> r in rows && r.key == key
  {
    if rows == [] then []
    else if rows[0].key == key then [rows[0]] + Matching(rows[1..], key)
    else Matching(rows[1..], key)
  }

  /** DELETE ... WHERE key = ? */
  function Without(rows: seq<ConfigItem>, key: string): (rest: seq<ConfigItem>)
    ensures forall r :: r in rest <==> r in rows && r.key != key
    ensures |rest| + |Matching(rows, key)| == |rows|
  {
    if rows == [] then []
    else if rows[0].key == key then Without(rows[1..], key)
    else [rows[0]] + Without(rows[1..], key)
  }

  /** UPDATE ... WHERE id = ? */
  function Replaced(rows: seq<ConfigItem>, item: ConfigItem): (rows': seq<ConfigItem>)
    ensures |rows'| == |rows|
    ensures forall i :: 0 <= i < |rows| ==> rows'[i] == if rows[i].id == item.id then item else rows[i]
  {
    seq(|rows|, i requires 0 <= i < |rows| => if rows[i].id == item.id then item else rows[i])
  }

  /** The table as a map from keys to values. */
  ghost function Contents(rows: seq<ConfigItem>): (m: map<string, string>)
    ensures forall k :: k in m <==> exists r :: r in rows && r.key == k
  {
    if rows == [] then map[] else Contents(rows[1..])[rows[0].key := rows[0].value]
  }

  lemma {:induction false} ContentsHoldEachRow(rows: seq<ConfigItem>, row: ConfigItem)
    requires UniqueKeys(rows) && row in rows
    ensures Contents(rows)[row.key] == row.value
  {
    if row != rows[0] {
      ContentsHoldEachRow(rows[1..], row);
    }
  }

  /** A table of unique keys is the one map that every row agrees with. */
  lemma ContentsDetermined(rows: seq<ConfigItem>, m: map<string, string>)
    requires UniqueKeys(rows)
    requires forall r :: r in rows ==> r.key in m && m[r.key] == r.value
    requires forall k :: k in m ==> exists r :: r in rows && r.key == k
    ensures Contents(rows) == m
  {
    forall k | k in Contents(rows) ensures k in m && Contents(rows)[k] == m[k] {
      var r :| r in rows && r.key == k;
      ContentsHoldEachRow(rows, r);
    }
  }

  lemma {:induction false} MatchingIsUnique(rows: seq<ConfigItem>, key: string)
    requires UniqueKeys(rows)
    ensures |Matching(rows, key)| == if key in Contents(rows) then 1 else 0
    ensures key in Contents(rows) ==> Matching(rows, key)[0].value == Contents(rows)[key]
  {
    if rows != [] {
      MatchingIsUnique(rows[1..], key);
    }
  }

  lemma {:induction false} WithoutKeepsUnique(rows: seq<ConfigItem>, key: string)
    requires UniqueKeys(rows)
    ensures UniqueKeys(Without(rows, key))
  {
    if rows != [] {
      WithoutKeepsUnique(rows[1..], key);
      var rest := Without(rows[1..], key);
      forall r | r in rest ensures rows[0].key != r.key && rows[0].id != r.id {
        assert r in rows[1..];
      }
    }
  }

  lemma WithoutRemovesKey(rows: seq<ConfigItem>, key: string)
    requires UniqueKeys(rows)
    ensures UniqueKeys(Without(rows, key))
    ensures Contents(Without(rows, key)) == Contents(rows) - {key}
  {
    WithoutKeepsUnique(rows, key);
    var rest, m := Without(rows, key), Contents(rows) - {key};
    forall r | r in rest ensures r.key in m && m[r.key] == r.value {
      ContentsHoldEachRow(rows, r);
    }
    forall k | k in m ensures exists r :: r in rest && r.key == k {
      var r :| r in rows && r.key == k;
      assert r in rest;
    }
    ContentsDetermined(rest, m);
  }

  lemma AppendAddsKey(rows: seq<ConfigItem>, row: ConfigItem)
    requires UniqueKeys(rows) && UniqueKeys(rows + [row])
    ensures Contents(rows + [row]) == Contents(rows)[row.key := row.value]
  {
    var m := Contents(rows)[row.key := row.value];
    forall i | 0 <= i < |rows + [row]|
      ensures (rows + [row])[i].key in m && m[(rows + [row])[i].key] == (rows + [row])[i].value
    {
      if i < |rows| {
        assert (rows + [row])[i].key != (rows + [row])[|rows|].key;
        ContentsHoldEachRow(rows, rows[i]);
      }
    }
    forall k | k in m ensures exists r :: r in rows + [row] && r.key == k {
      if k == row.key {
        assert row in rows + [row];
      } else {
        var r :| r in rows && r.key == k;
        assert r in rows + [row];
      }
    }
    ContentsDetermined(rows + [row], m);
  }

  lemma ReplacedAt(rows: seq<ConfigItem>, item: ConfigItem, j: nat)
    requires j < |rows| && UniqueKeys(rows)
    requires exists i :: 0 <= i < |rows| && rows[i].id == item.id && rows[i].key == item.key
    ensures |Replaced(rows, item)| == |rows|
    ensures Replaced(rows, item)[j] == if rows[j].key == item.key then item else rows[j]
    ensures Replaced(rows, item)[j].key == rows[j].key && Replaced(rows, item)[j].id == rows[j].id
  {
  }

  lemma ReplacedKeepsUnique(rows: seq<ConfigItem>, was: ConfigItem, item: ConfigItem)
    requires UniqueKeys(rows) && was in rows && item.id == was.id && item.key == was.key
    ensures UniqueKeys(Replaced(rows, item))
  {
    forall j | 0 <= j < |rows|
      ensures Replaced(rows, item)[j].key == rows[j].key && Replaced(rows, item)[j].id == rows[j].id
    {
      ReplacedAt(rows, item, j);
    }
  }

  lemma ReplacedSetsValue(rows: seq<ConfigItem>, was: ConfigItem, item: ConfigItem)
    requires UniqueKeys(rows) && was in rows && item.id == was.id && item.key == was.key
    ensures UniqueKeys(Replaced(rows, item))
    ensures Contents(Replaced(rows, item)) == Contents(rows)[item.key := item.value]
  {
    ReplacedKeepsUnique(rows, was, item);
    var rows', m := Replaced(rows, item), Contents(rows)[item.key := item.value];
    forall j | 0 <= j < |rows| ensures rows'[j].key in m && m[rows'[j].key] == rows'[j].value {
      ReplacedAt(rows, item, j);
      ContentsHoldEachRow(rows, rows[j]);
    }
    forall k | k in m ensures exists r :: r in rows' && r.key == k {
      var r := if k == item.key then was else var r :| r in rows && r.key == k; r;
      var j :| 0 <= j < |rows| && rows[j] == r;
      ReplacedAt(rows, item, j);
      assert rows'[j] in rows';
    }
    ContentsDetermined(rows', m);
  }

  class Table {
    var rows: seq<ConfigItem>
    var nextId: nat

    ghost predicate Valid()
      reads this
    {
      UniqueKeys(rows) && forall r :: r in rows ==> r.id < nextId
    }

    ghost function View(): map<string, string>
      reads this
    {
      Contents(rows)
    }

    constructor ()
      ensures Valid() && View() == map[]
    {
      rows, nextId := [], 0;
    }

    /** Whatever other requests commit between two transactions: callers learn nothing but validity. */
    method OtherRequests()
      requires Valid()
      modifies this
      ensures Valid()
    {
    }

    method GetConfigItem(key: string) returns (r: Result<ConfigItem>)
      requires Valid()
      ensures r.Ok? <==> key in View()
      ensures r.Ok? ==> r.value in rows && r.value.key == key && r.value.value == View()[key]
      ensures r.Err? ==> r.status == NotFound
    {
      MatchingIsUnique(rows, key);
      var objects := Matching(rows, key);
      if |objects| == 0 {
        return Err(NotFound);
      } else if |objects| == 1 {
        assert objects[0] in objects;
        return Ok(objects[0]);
      } else {
        return Err(Internal);
      }
    }

    method CreateConfigItem(key: string, value: string) returns (r: Result<nat>)
      requires Valid()
      modifies this
      ensures Valid()
      ensures key in old(View()) ==> r == Err(Conflict) && View() == old(View())
      ensures key !in old(View()) ==> r == Ok(old(nextId)) && View() == old(View())[key := value]
    {
      var existing := GetConfigItem(key);
      if existing.Ok? {
        return Err(Conflict);
      }
      var row := ConfigItem(nextId, key, value);
      AppendAddsKey(rows, row);
      rows := rows + [row];
      nextId := nextId + 1;
      return Ok(row.id);
    }

    method UpdateConfigItem(key: string, value: string) returns (r: Result<()>)
      requires Valid()
      modifies this
      ensures Valid()
      ensures key in old(View()) ==> r == Ok(()) && View() == old(View())[key := value]
      ensures key !in old(View()) ==> r == Err(NotFound) && View() == old(View())
    {
      var existing := GetConfigItem(key);
      if existing.Err? {
        return Err(existing.status);
      }
      var row := ConfigItem(existing.value.id, key, value);
      ReplacedSetsValue(rows, existing.value, row);
      rows := Replaced(rows, row);
      return Ok(());
    }

    method DeleteConfigItem(key: string) returns (r: Result<()>)
      requires Valid()
      modifies this
      ensures Valid()
      ensures View() == old(View()) - {key}
      ensures r == if key in old(View()) then Ok(()) else Err(NotFound)
    {
      MatchingIsUnique(rows, key);
      WithoutRemovesKey(rows, key);
      var n := |Matching(rows, key)|;
      rows := Without(rows, key);
      if n == 0 {
        return Err(NotFound);
      } else if n > 1 {
        return Err(Internal);
      }
      return Ok(());
    }

    /** The transaction that only reads. */
    method GetConfig(key: string) returns (r: Result<string>, faulted: bool)
      requires Valid()
      ensures faulted ==> r == Err(Internal)
      ensures !faulted ==> r == if key in View() then Ok(View()[key]) else Err(NotFound)
    {
      faulted := *;
      if faulted {
        return Err(Internal), faulted;
      }
      var record := GetConfigItem(key);
      r := if record.Ok? then Ok(record.value.value) else Err(record.status);
    }

    method CreateConfig(key: string, value: string) returns (r: Result<()>, faulted: bool)
      requires Valid()
      modifies this
      ensures Valid()
      ensures faulted ==> r == Err(Internal) && View() == old(View())
      ensures !faulted && key in old(View()) ==> r == Err(Conflict) && View() == old(View())
      ensures !faulted && key !in old(View()) ==> r == Ok(()) && View() == old(View())[key := value]
    {
      faulted := *;
      if faulted {
        return Err(Internal), faulted;
      }
      var created := CreateConfigItem(key, value);
      r := Discard(created);
    }

    /** Update, falling back to create inside the same transaction when the key is missing. */
    method UpdateConfig(key: string, value: string) returns (r: Result<()>, faulted: bool)
      requires Valid()
      modifies this
      ensures Valid()
      ensures faulted ==> r == Err(Internal) && View() == old(View())
      ensures !faulted ==> r == Ok(()) && View() == old(View())[key := value]
    {
      faulted := *;
      if faulted {
        return Err(Internal), faulted;
      }
      r := UpdateConfigItem(key, value);
      if r == Err(NotFound) {
        var created := CreateConfigItem(key, value);
        r := Discard(created);
      }
    }

    method DeleteConfig(key: string) returns (r: Result<()>, faulted: bool)
      requires Valid()
      modifies this
      ensures Valid()
      ensures faulted ==> r == Err(Internal) && View() == old(View())
      ensures !faulted ==> View() == old(View()) - {key}
      ensures !faulted ==> r == if key in old(View()) then Ok(()) else Err(NotFound)
    {
      faulted := *;
      if faulted {
        return Err(Internal), faulted;
      }
      r := DeleteConfigItem(key);
    }
  }
}
