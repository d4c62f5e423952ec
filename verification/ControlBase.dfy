/** SDI_C, the control data structure shared by all tasks of a module
    (include/genom/modules.h), with the events raised by h2evnSignal. */
module ControlBase {
  import opened Activities

  class Sdi {
    const nbRqst: nat
    const periodic: seq<bool>          // does task t have a period?
    const tab: array<Activity>         // activityTab[MAX_ACTIVITIES]
    const nbActi: array<int>           // execTaskTab[t].nbActivities
    const wakeUp: array<bool>          // execTaskTab[t].wakeUp
    var nbActivities: int
    var nbZombie: int
    var lastNum: int                   // LastActivityNum
    var lastId: int                    // LastAbsolutActivityNum
    var pending: set<int>              // raised events: t for task t, NbTask() for the control task
    var failed: set<int>               // execution tasks whose status is ERROR

    function NbTask(): nat {
      |periodic|
    }

    ghost predicate CountsOk()
      reads this, tab, nbActi
    {
      && nbActi.Length == |periodic|
      && (forall t :: 0 <= t < |periodic| ==> nbActi[t] == Total(tab[..], OwnedBy(t)))
      && nbActivities == Total(tab[..], AllLive)
      && nbZombie == Total(tab[..], Zombies)
    }

    ghost predicate Valid()
      reads this, tab, nbActi
    {
      && wakeUp.Length == |periodic|
      && -1 <= lastNum < tab.Length
      && TableOk(tab[..], |periodic|, nbRqst)
      && CountsOk()
    }

    /** CntrlInitTask: every slot free, every counter zero. */
    constructor (max: nat, nbRqst: nat, periodic: seq<bool>)
      ensures Valid() && this.nbRqst == nbRqst && this.periodic == periodic
      ensures tab.Length == max && fresh(tab) && fresh(nbActi) && fresh(wakeUp)
      ensures forall i :: 0 <= i < max ==> !Live(tab[i])
      ensures lastNum == -1 && lastId == -1 && pending == {} && failed == {}
    {
      this.nbRqst := nbRqst;
      this.periodic := periodic;
      tab := new Activity[max](_ => Activity(Ether, NoEvent, 0, 0, -1, [], []));
      nbActi := new int[|periodic|](_ => 0);
      wakeUp := new bool[|periodic|](_ => false);
      nbActivities, nbZombie, lastNum, lastId, pending, failed := 0, 0, -1, -1, {}, {};
      new;
      assert forall p: Population :: (p.OwnedBy? ==> p.task >= 0) ==> Total(tab[..], p) == 0 by {
        forall p: Population | p.OwnedBy? ==> p.task >= 0
          ensures Total(tab[..], p) == 0
        {
          CountMonotonic(tab[..], p, 0, max);
        }
      }
    }
  }
}
