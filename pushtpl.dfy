/** The template message of the WeChat test account (dowxpush/sandbox/entity/push_tpl.go),
    filled one keyword at a time. A nil `Data` map is None. */
module WxEntity {
  import opened Wrappers

  /** One keyword's text and colour (dataItem). */
  datatype DataItem = DataItem(value: string, color: string)

  /** The keywords after one AddData: a nil map reads as empty. */
  function Added(data: Option<map<string, DataItem>>, key: string, item: DataItem): (m: map<string, DataItem>)
    ensures key in m && m[key] == item
    ensures m.Keys == (if data.Some? then data.value.Keys else {}) + {key}
    ensures data.Some? ==> forall k :: k in data.value && k != key ==> m[k] == data.value[k]
  {
    (if data.Some? then data.value else map[])[key := item]
  }

  /** A later AddData with the same key replaces the earlier one. */
  lemma AddedOverwrites(data: Option<map<string, DataItem>>, key: string, a: DataItem, b: DataItem)
    ensures Added(Some(Added(data, key, a)), key, b) == Added(data, key, b)
  {
  }

  /** AddData calls with different keys can be made in either order. */
  lemma AddedCommutes(data: Option<map<string, DataItem>>, k1: string, a: DataItem, k2: string, b: DataItem)
    requires k1 != k2
    ensures Added(Some(Added(data, k1, a)), k2, b) == Added(Some(Added(data, k2, b)), k1, a)
  {
    var l := Added(Some(Added(data, k1, a)), k2, b);
    var r := Added(Some(Added(data, k2, b)), k1, a);
    assert l.Keys == r.Keys;
    forall k | k in l ensures l[k] == r[k] {
    }
  }

  /** PushMsg: the addressee, the template, the link and the keywords. */
  class PushMsg {
    var touser: string
    var templateID: string
    var url: string
    var data: Option<map<string, DataItem>>

    /** A composite literal with `Data: nil`. */
    constructor (touser: string, templateID: string, url: string)
      ensures this.touser == touser && this.templateID == templateID && this.url == url
      ensures data == None
    {
      this.touser := touser;
      this.templateID := templateID;
      this.url := url;
      data := None;
    }

    /** AddData: allocate the map when nil, set `key`, and return the receiver so calls
        chain. */
    method AddData(key: string, value: string, color: string) returns (p: PushMsg)
      modifies this
      ensures p == this
      ensures data == Some(Added(old(data), key, DataItem(value, color)))
      ensures touser == old(touser) && templateID == old(templateID) && url == old(url)
    {
      if data.None? {
        data := Some(map[]);
      }
      data := Some(data.value[key := DataItem(value, color)]);
      return this;
    }
  }

  /** The chain of three AddData calls a test makes on a fresh message: the result holds
      exactly the three keywords. */
  method FillTimeTitleMsg(m: PushMsg, time: string, title: string, msg: string) returns (p: PushMsg)
    requires m.data == None
    modifies m
    ensures p == m
    ensures m.data == Some(map["time" := DataItem(time, ""), "title" := DataItem(title, ""), "msg" := DataItem(msg, "")])
    ensures m.touser == old(m.touser) && m.templateID == old(m.templateID) && m.url == old(m.url)
  {
    p := m.AddData("time", time, "");
    p := p.AddData("title", title, "");
    p := p.AddData("msg", msg, "");
  }
}
