/**
  What the React contexts see of their requests. The request itself is not
  modelled: a context method is handed the reply it got, and the multipart
  form it would post is returned as a list of (name, value) entries.
 */
module Http {
  import opened Wrappers

  /** The outcome of an awaited request: the response body, or the message
      carried by the error it threw (`error.response?.data?.message ||
      error.message`). */
  datatype Reply<+T> = Ok(body: T) | Failed(message: string)

  /** `!accessToken` is false: a token is present and not empty. */
  predicate HasToken(token: Option<string>) {
    token.Some? && token.value != ""
  }

  /** `list ?? []` (and `list || []`, which agrees with it on lists). */
  function OrEmpty<T>(list: Option<seq<T>>): (r: seq<T>)
    ensures list.Some? ==> r == list.value
    ensures list.None? ==> r == []
  {
    if list.Some? then list.value else []
  }

  /** `message || "Unknown error"`. */
  function OrUnknown(message: string): (r: string)
    ensures r != ""
    ensures message != "" ==> r == message
  {
    if message == "" then "Unknown error" else message
  }

  /** A multipart form: its entries in the order they were appended. */
  type FormData = seq<(string, string)>

  /** `formData.get(name)`: the value of the first entry with that name. */
  function Get(form: FormData, name: string): Option<string> {
    if form == [] then None
    else if form[0].0 == name then Some(form[0].1)
    else Get(form[1..], name)
  }

  /** A name is found exactly when some entry carries it, and what is found
      is the value of the first such entry. */
  lemma {:induction false} GetFirst(form: FormData, name: string)
    ensures Get(form, name).Some? <==> exists k :: 0 <= k < |form| && form[k].0 == name
    ensures Get(form, name).Some? ==> exists k :: (0 <= k < |form| && form[k] == (name, Get(form, name).value) &&
      forall j :: 0 <= j < k ==> form[j].0 != name)
  {
    if form != [] && form[0].0 != name {
      GetFirst(form[1..], name);
      assert forall k :: 1 <= k < |form| ==> form[k] == form[1..][k - 1];
      if Get(form, name).Some? {
        var k :| 0 <= k < |form[1..]| && form[1..][k] == (name, Get(form, name).value) &&
          forall j :: 0 <= j < k ==> form[1..][j].0 != name;
        assert form[k + 1] == (name, Get(form, name).value);
        assert forall j :: 0 <= j < k + 1 ==> form[j].0 != name by {
          forall j | 0 <= j < k + 1 ensures form[j].0 != name {
            if j > 0 { assert form[j] == form[1..][j - 1]; }
          }
        }
      }
    } else if form != [] {
      assert form[0] == (name, Get(form, name).value);
    }
  }

  /** A name no entry carries is not found. */
  lemma GetMissing(form: FormData, name: string)
    requires forall k :: 0 <= k < |form| ==> form[k].0 != name
    ensures Get(form, name) == None
  {
    GetFirst(form, name);
  }

  /** Looking a name up in two forms appended together finds it in the first
      when it is there, and in the second otherwise. */
  lemma {:induction false} GetAppend(a: FormData, b: FormData, name: string)
    ensures Get(a + b, name) == if Get(a, name).Some? then Get(a, name) else Get(b, name)
  {
    if a != [] {
      assert (a + b)[1..] == a[1..] + b;
      GetAppend(a[1..], b, name);
    } else {
      assert a + b == b;
    }
  }

  /** Appending `(name, value)` when `c` holds, as `if (c) form.append(...)`. */
  function AppendIf(c: bool, name: string, value: string): (r: FormData)
    ensures c ==> Get(r, name) == Some(value)
    ensures !c ==> r == []
  {
    if c then [(name, value)] else []
  }
}
