/**
  The workout catalog: what a workout is, and the four workouts the app
  offers on its start screen.
 */
module Workouts {

  /**
    A workout as the session controller sees it: an identifier, a display
    name and the ordered list of its exercises. The nominal duration, the
    calorie estimate, the icon and the gradient are display-only and are
    not part of the model.
   */
  datatype Workout = Workout(id: string, name: string, exercises: seq<string>)

  /** A workout the session player can run: it has at least one exercise. */
  predicate Playable(w: Workout) {
    w.exercises != []
  }

  /** The static catalog shown on the start screen. */
  function Catalog(): (ws: seq<Workout>)
    ensures |ws| == 4
    ensures forall i :: 0 <= i < |ws| ==> |ws[i].exercises| == 5 && Playable(ws[i])
    ensures forall i, j :: 0 <= i < j < |ws| ==> ws[i].id != ws[j].id
  {
    [ Workout("1", "Кардио взрыв",
              ["Бег на месте", "Берпи", "Прыжки", "Скакалка", "Jumping Jacks"]),
      Workout("2", "Силовая тренировка",
              ["Приседания", "Отжимания", "Планка", "Выпады", "Подтягивания"]),
      Workout("3", "Йога флоу",
              ["Собака мордой вниз", "Поза воина", "Дерево", "Кобра", "Шавасана"]),
      Workout("4", "Растяжка",
              ["Наклоны", "Боковые растяжки", "Скручивания", "Растяжка ног", "Шея"]) ]
  }
}
